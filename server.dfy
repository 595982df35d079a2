/**
 * The running application's bank state: the two tables and the ledger that
 * the handlers update in place, with one method per state-changing handler.
 * Each method does its work step by step, as the handler does on the loaded
 * rows, and its postcondition ties the new state to the handler's function
 * in module Routes, whose properties are proved there.
 */
module Server {
  import opened Wrappers
  import opened Models
  import opened Store
  import Routes

  class Bank {
    var accounts: map<nat, Account>
    var users: map<nat, User>
    var ledger: seq<Transaction>
    /** The primary keys the database hands out next. */
    var nextAccountId: nat
    var nextUserId: nat

    function State(): BankState
      reads this
    {
      BankState(accounts, users, ledger)
    }

    ghost predicate Valid()
      reads this
    {
      && WellFormed(State())
      && (forall id :: id in accounts ==> id < nextAccountId)
      && (forall id :: id in users ==> id < nextUserId)
    }

    constructor ()
      ensures Valid()
      ensures State() == BankState(map[], map[], [])
    {
      accounts, users, ledger := map[], map[], [];
      nextAccountId, nextUserId := 1, 1;
    }

    /** Adds a user row (`db.session.add` and `commit`); a taken username or email is refused. */
    method InsertUser(u: User) returns (r: Result<nat, Error>)
      requires Valid()
      modifies this
      ensures Valid()
      ensures (State(), r) == Store.InsertUser(old(State()), old(nextUserId), u)
      ensures nextAccountId == old(nextAccountId)
      ensures nextUserId == if r.Success? then old(nextUserId) + 1 else old(nextUserId)
    {
      var id := nextUserId;
      if exists i :: i in users && (users[i].username == u.username || users[i].email == u.email) {
        r := Failure(DuplicateKey);
        return;
      }
      users := users[id := u];
      nextUserId := nextUserId + 1;
      r := Success(id);
    }

    /** Adds an account row; a number some account already has is refused by the unique column. */
    method InsertAccount(a: Account) returns (r: Result<nat, Error>)
      requires Valid()
      modifies this
      ensures Valid()
      ensures (State(), r) == Store.InsertAccount(old(State()), old(nextAccountId), a)
      ensures r.Success? ==> TotalBalance(accounts) == TotalBalance(old(accounts)) + a.balance
      ensures nextUserId == old(nextUserId)
      ensures nextAccountId == if r.Success? then old(nextAccountId) + 1 else old(nextAccountId)
    {
      var id := nextAccountId;
      if exists i :: i in accounts && accounts[i].accountNumber == a.accountNumber {
        r := Failure(DuplicateKey);
        return;
      }
      TotalBalanceInsert(accounts, id, a);
      accounts := accounts[id := a];
      nextAccountId := nextAccountId + 1;
      r := Success(id);
    }

    /**
     * `transfer_money`: run the checks in the handler's order, then let
     * `ApplyTransfer` change the rows and commit or roll back.
     */
    method TransferMoney(me: nat, sourceId: nat, destinationNumber: string, amount: Option<int>, commitOk: bool)
      returns (r: Result<Transaction, Error>)
      requires Valid()
      modifies this
      ensures Valid()
      ensures var o := Routes.TransferMoney(old(State()), me, sourceId, destinationNumber, amount, commitOk); State() == o.state && r == o.result
      ensures old(ledger) <= ledger && |ledger| <= |old(ledger)| + 1
      ensures TotalBalance(accounts) == TotalBalance(old(accounts))
      ensures users == old(users)
      ensures nextAccountId == old(nextAccountId) && nextUserId == old(nextUserId)
    {
      ghost var before := State();
      Routes.TransferConservesTotal(before, me, sourceId, destinationNumber, amount, commitOk);
      Routes.TransferErrorOrder(before, me, sourceId, destinationNumber, amount, commitOk);
      if amount.None? {
        return Failure(InvalidAmount);
      }
      if sourceId !in accounts {
        return Failure(NotFound);
      }
      var destination := AccountWithNumber(accounts, destinationNumber);
      if destination.None? {
        return Failure(DestinationNotFound);
      }
      if accounts[sourceId].userId != me {
        return Failure(Unauthorized);
      }
      if accounts[sourceId].balance < amount.value {
        return Failure(InsufficientFunds);
      }
      Routes.TransferCommitted(before, me, sourceId, destinationNumber, amount.value);
      r := ApplyTransfer(sourceId, destination.value, amount.value, commitOk);
    }

    /**
     * The body of the handler's `try` after the checks: debit the source row,
     * credit the destination row (read after the debit, so that a transfer to
     * the source itself nets to zero), add the ledger entry, then commit;
     * when the commit is refused, roll the session back.
     */
    method ApplyTransfer(sourceId: nat, destinationId: nat, value: int, commitOk: bool) returns (r: Result<Transaction, Error>)
      requires sourceId in accounts && destinationId in accounts
      modifies this
      ensures users == old(users) && nextAccountId == old(nextAccountId) && nextUserId == old(nextUserId)
      ensures commitOk ==>
        && accounts == Routes.Move(old(accounts), sourceId, destinationId, value)
        && r == Success(Routes.TransferEntry(old(accounts), sourceId, destinationId, value))
        && ledger == old(ledger) + [r.value]
      ensures !commitOk ==> accounts == old(accounts) && ledger == old(ledger) && r == Failure(CommitFailed)
    {
      // What a rollback restores.
      var savedAccounts, savedLedger := accounts, ledger;
      var source := accounts[sourceId];
      accounts := accounts[sourceId := source.(balance := source.balance - value)];
      var target := accounts[destinationId];
      accounts := accounts[destinationId := target.(balance := target.balance + value)];
      var entry := NewTransaction(value, source.currency, sourceId, Transfer, sentAccountId := Some(destinationId));
      ledger := ledger + [entry];
      if !commitOk {
        accounts, ledger := savedAccounts, savedLedger;
        return Failure(CommitFailed);
      }
      r := Success(entry);
    }

    /** `update_account`. */
    method UpdateAccount(me: nat, id: nat, name: Option<string>) returns (r: Result<Account, Error>)
      requires Valid() && me in users
      modifies this
      ensures Valid()
      ensures var o := Routes.UpdateAccount(old(State()), me, id, name); State() == o.state && r == o.result
      ensures nextAccountId == old(nextAccountId) && nextUserId == old(nextUserId)
    {
      if id !in accounts {
        return Failure(NotFound);
      }
      var account := accounts[id];
      if account.userId != me && !users[me].admin {
        return Failure(Unauthorized);
      }
      account := account.(name := name.GetOr(account.name));
      accounts := accounts[id := account];
      r := Success(account);
    }

    /** `delete_account`. */
    method DeleteAccount(me: nat, id: nat) returns (r: Result<(), Error>)
      requires Valid() && me in users
      modifies this
      ensures Valid()
      ensures var o := Routes.DeleteAccount(old(State()), me, id); State() == o.state && r == o.result
      ensures nextAccountId == old(nextAccountId) && nextUserId == old(nextUserId)
    {
      if id !in accounts {
        return Failure(NotFound);
      }
      var account := accounts[id];
      if account.userId != me && !users[me].admin {
        return Failure(Unauthorized);
      }
      accounts := accounts[id := account.(status := Inactive)];
      r := Success(());
    }

    /** `update_user`. */
    method UpdateUser(me: nat, id: nat, patch: Routes.UserPatch) returns (r: Result<User, Error>)
      requires Valid() && me in users
      modifies this
      ensures Valid()
      ensures var o := Routes.UpdateUser(old(State()), me, id, patch); State() == o.state && r == o.result
      ensures nextAccountId == old(nextAccountId) && nextUserId == old(nextUserId)
    {
      if !users[me].admin {
        return Failure(Forbidden);
      }
      if id !in users {
        return Failure(NotFound);
      }
      var user := users[id];
      user := user.(username := patch.username.GetOr(user.username));
      user := user.(email := patch.email.GetOr(user.email));
      if patch.passwordHash.Some? {
        user := user.(passwordHash := patch.passwordHash.value);
      }
      user := user.(admin := patch.admin.GetOr(user.admin));
      if !UniqueUserKeys(users[id := user]) {
        return Failure(DuplicateKey);
      }
      users := users[id := user];
      r := Success(user);
    }

    /** `delete_user`. */
    method DeleteUser(me: nat, id: nat) returns (r: Result<(), Error>)
      requires Valid() && me in users
      modifies this
      ensures Valid()
      ensures var o := Routes.DeleteUser(old(State()), me, id); State() == o.state && r == o.result
      ensures nextAccountId == old(nextAccountId) && nextUserId == old(nextUserId)
    {
      if !users[me].admin {
        return Failure(Forbidden);
      }
      if id !in users {
        return Failure(NotFound);
      }
      users := users[id := users[id].(status := Inactive)];
      r := Success(());
    }
  }
}
