/**
 * The handlers that change the bank, each as a function from the database
 * state before the request to the state after it and the handler's answer.
 * `transfer_money` is the centre; the account and user handlers that update
 * or deactivate one row complete the set.
 */
module Routes {
  import opened Wrappers
  import opened Models
  import opened Store
  import opened Access

  /** The state after a request and what the handler answered. */
  datatype Response<T> = Response(state: BankState, result: Result<T, Error>)

  /** A rejected request: nothing reaches the database. */
  function Reject<T>(s: BankState, e: Error): (r: Response<T>)
    ensures r.state == s && r.result == Failure(e)
  {
    Response(s, Failure(e))
  }

  // ---------------------------------------------------------------- transfer

  /**
   * The two balance updates of a transfer, in the handler's order: the
   * destination is updated on the table that already holds the debit, so
   * when both are one account the two updates cancel.
   */
  function Move(accounts: map<nat, Account>, from: nat, to: nat, amount: int): (r: map<nat, Account>)
    requires from in accounts && to in accounts
    ensures r.Keys == accounts.Keys
  {
    var debited := accounts[from := accounts[from].(balance := accounts[from].balance - amount)];
    debited[to := debited[to].(balance := debited[to].balance + amount)]
  }

  /** Debiting and crediting the same amount leaves the sum of all balances unchanged. */
  lemma MoveConservesTotal(accounts: map<nat, Account>, from: nat, to: nat, amount: int)
    requires from in accounts && to in accounts
    ensures TotalBalance(Move(accounts, from, to, amount)) == TotalBalance(accounts)
  {
    var debited := accounts[from := accounts[from].(balance := accounts[from].balance - amount)];
    TotalBalanceUpdate(accounts, from, debited[from]);
    TotalBalanceUpdate(debited, to, debited[to].(balance := debited[to].balance + amount));
  }

  /** The ledger entry a transfer builds: no `user_id` and no description are passed. */
  function TransferEntry(accounts: map<nat, Account>, from: nat, to: nat, amount: int): Transaction
    requires from in accounts
  {
    NewTransaction(amount, accounts[from].currency, from, Transfer, sentAccountId := Some(to))
  }

  /**
   * The checks of `transfer_money` that precede any change, in its order:
   * the amount parses, the source exists, the destination number exists,
   * the current user owns the source, and the source balance is not less
   * than the amount.
   */
  predicate TransferAdmissible(s: BankState, me: nat, sourceId: nat, destinationNumber: string, amount: Option<int>)
    requires WellFormed(s)
  {
    && amount.Some?
    && sourceId in s.accounts
    && AccountWithNumber(s.accounts, destinationNumber).Some?
    && s.accounts[sourceId].userId == me
    && s.accounts[sourceId].balance >= amount.value
  }

  /**
   * `transfer_money`. `amount` is None when `float(...)` raises; `commitOk`
   * is whether the database accepts the commit. Every failure, the checks
   * and a refused commit alike, leaves the state as it was.
   */
  function TransferMoney(s: BankState, me: nat, sourceId: nat, destinationNumber: string, amount: Option<int>, commitOk: bool): (r: Response<Transaction>)
    requires WellFormed(s)
    ensures WellFormed(r.state)
    ensures r.result.Success? <==> TransferAdmissible(s, me, sourceId, destinationNumber, amount) && commitOk
    ensures r.result.Failure? ==> r.state == s
    ensures r.state.users == s.users
  {
    if amount.None? then Reject(s, InvalidAmount)
    else if sourceId !in s.accounts then Reject(s, NotFound)
    else
      match AccountWithNumber(s.accounts, destinationNumber)
      case None => Reject(s, DestinationNotFound)
      case Some(destinationId) =>
        var source := s.accounts[sourceId];
        if source.userId != me then Reject(s, Unauthorized)
        else if source.balance < amount.value then Reject(s, InsufficientFunds)
        else if !commitOk then Reject(s, CommitFailed)
        else
          var entry := TransferEntry(s.accounts, sourceId, destinationId, amount.value);
          var s' := s.(accounts := Move(s.accounts, sourceId, destinationId, amount.value), ledger := s.ledger + [entry]);
          assert LedgerReferencesAccounts(s') by {
            forall k | 0 <= k < |s'.ledger|
              ensures s'.ledger[k].accountId in s'.accounts
            {
              if k < |s.ledger| { assert s'.ledger[k] == s.ledger[k]; }
            }
          }
          Response(s', Success(entry))
  }

  /** What an admissible transfer that is committed leaves behind. */
  lemma TransferCommitted(s: BankState, me: nat, sourceId: nat, destinationNumber: string, amount: int)
    requires WellFormed(s) && TransferAdmissible(s, me, sourceId, destinationNumber, Some(amount))
    ensures var d := AccountWithNumber(s.accounts, destinationNumber).value;
      var entry := TransferEntry(s.accounts, sourceId, d, amount);
      TransferMoney(s, me, sourceId, destinationNumber, Some(amount), true)
        == Response(BankState(Move(s.accounts, sourceId, d, amount), s.users, s.ledger + [entry]), Success(entry))
  {
  }

  /** The first failing check decides the error, in the handler's order. */
  lemma TransferErrorOrder(s: BankState, me: nat, sourceId: nat, destinationNumber: string, amount: Option<int>, commitOk: bool)
    requires WellFormed(s)
    ensures var e := TransferMoney(s, me, sourceId, destinationNumber, amount, commitOk).result;
      && (amount.None? ==> e == Failure(InvalidAmount))
      && (amount.Some? && sourceId !in s.accounts ==> e == Failure(NotFound))
      && (amount.Some? && sourceId in s.accounts && AccountWithNumber(s.accounts, destinationNumber).None?
          ==> e == Failure(DestinationNotFound))
      && ((amount.Some? && sourceId in s.accounts && AccountWithNumber(s.accounts, destinationNumber).Some?
           && s.accounts[sourceId].userId != me) ==> e == Failure(Unauthorized))
      && ((amount.Some? && sourceId in s.accounts && AccountWithNumber(s.accounts, destinationNumber).Some?
           && s.accounts[sourceId].userId == me && s.accounts[sourceId].balance < amount.value)
          ==> e == Failure(InsufficientFunds))
      && (TransferAdmissible(s, me, sourceId, destinationNumber, amount) && !commitOk ==> e == Failure(CommitFailed))
  {
  }

  /**
   * An unknown destination number is reported before ownership and funds are
   * looked at: whoever asks and whatever the balance, the answer is the same.
   */
  lemma TransferUnknownDestination(s: BankState, me: nat, sourceId: nat, destinationNumber: string, amount: int, commitOk: bool)
    requires WellFormed(s) && sourceId in s.accounts
    requires forall id :: id in s.accounts ==> s.accounts[id].accountNumber != destinationNumber
    ensures TransferMoney(s, me, sourceId, destinationNumber, Some(amount), commitOk) == Response(s, Failure(DestinationNotFound))
  {
  }

  /**
   * Only the owner may transfer from an account: an admin who may read,
   * rename and delete it is still refused, and nothing changes.
   */
  lemma TransferHasNoAdminException(s: BankState, me: nat, sourceId: nat, destinationNumber: string, amount: int, commitOk: bool)
    requires WellFormed(s) && me in s.users && s.users[me].admin
    requires sourceId in s.accounts && s.accounts[sourceId].userId != me
    requires exists id :: id in s.accounts && s.accounts[id].accountNumber == destinationNumber
    ensures CanAccess(me, s.users[me], s.accounts[sourceId])
    ensures TransferMoney(s, me, sourceId, destinationNumber, Some(amount), commitOk) == Response(s, Failure(Unauthorized))
  {
  }

  /** A balance below the amount is refused and nothing changes. */
  lemma TransferInsufficientFunds(s: BankState, me: nat, sourceId: nat, destinationNumber: string, amount: int, commitOk: bool)
    requires WellFormed(s) && sourceId in s.accounts && s.accounts[sourceId].userId == me
    requires exists id :: id in s.accounts && s.accounts[id].accountNumber == destinationNumber
    requires s.accounts[sourceId].balance < amount
    ensures TransferMoney(s, me, sourceId, destinationNumber, Some(amount), commitOk) == Response(s, Failure(InsufficientFunds))
  {
  }

  /**
   * A committed transfer between two accounts lowers the source by exactly
   * the amount, raises the destination by exactly the amount, and changes no
   * other account and no other field.
   */
  lemma TransferMovesAmount(s: BankState, me: nat, sourceId: nat, destinationNumber: string, amount: Option<int>, commitOk: bool)
    requires WellFormed(s)
    ensures var r := TransferMoney(s, me, sourceId, destinationNumber, amount, commitOk);
      r.result.Success? ==>
        var d := r.result.value.sentAccountId.value;
        && d in s.accounts && s.accounts[d].accountNumber == destinationNumber
        && r.state.accounts.Keys == s.accounts.Keys
        && (d != sourceId ==>
            && r.state.accounts[sourceId] == s.accounts[sourceId].(balance := s.accounts[sourceId].balance - amount.value)
            && r.state.accounts[d] == s.accounts[d].(balance := s.accounts[d].balance + amount.value))
        && (forall id :: id in s.accounts && id != sourceId && id != d ==> r.state.accounts[id] == s.accounts[id])
  {
    if TransferAdmissible(s, me, sourceId, destinationNumber, amount) && commitOk {
      TransferCommitted(s, me, sourceId, destinationNumber, amount.value);
    }
  }

  /** A committed transfer to the source's own number changes no balance but is still logged. */
  lemma TransferToOwnNumber(s: BankState, me: nat, sourceId: nat, amount: Option<int>, commitOk: bool)
    requires WellFormed(s) && sourceId in s.accounts
    ensures var r := TransferMoney(s, me, sourceId, s.accounts[sourceId].accountNumber, amount, commitOk);
      r.result.Success? ==>
        && r.state.accounts == s.accounts
        && r.state.ledger == s.ledger + [r.result.value]
        && r.result.value.sentAccountId == Some(sourceId)
  {
    var r := TransferMoney(s, me, sourceId, s.accounts[sourceId].accountNumber, amount, commitOk);
    if r.result.Success? {
      var a := s.accounts[sourceId];
      assert r.state.accounts == s.accounts[sourceId := a.(balance := a.balance - amount.value)][sourceId := a.(balance := a.balance - amount.value + amount.value)];
    }
  }

  /** Whatever the outcome, the sum of all balances is what it was: a transfer moves money, it makes none. */
  lemma TransferConservesTotal(s: BankState, me: nat, sourceId: nat, destinationNumber: string, amount: Option<int>, commitOk: bool)
    requires WellFormed(s)
    ensures TotalBalance(TransferMoney(s, me, sourceId, destinationNumber, amount, commitOk).state.accounts) == TotalBalance(s.accounts)
  {
    if TransferAdmissible(s, me, sourceId, destinationNumber, amount) && commitOk {
      TransferCommitted(s, me, sourceId, destinationNumber, amount.value);
      MoveConservesTotal(s.accounts, sourceId, AccountWithNumber(s.accounts, destinationNumber).value, amount.value);
    }
  }

  /**
   * A committed transfer appends exactly one entry and keeps every earlier
   * one: type TRANSFER, the amount, the source's currency, the source as
   * `account_id`, the destination as `sent_account_id`, no description and
   * no user. A refused transfer appends nothing.
   */
  lemma TransferAppendsOneEntry(s: BankState, me: nat, sourceId: nat, destinationNumber: string, amount: Option<int>, commitOk: bool)
    requires WellFormed(s)
    ensures var r := TransferMoney(s, me, sourceId, destinationNumber, amount, commitOk);
      && (r.result.Failure? ==> r.state.ledger == s.ledger)
      && (r.result.Success? ==>
          var e := r.result.value;
          && r.state.ledger == s.ledger + [e]
          && e.transactionType == Transfer && e.amount == amount.value
          && e.currency == s.accounts[sourceId].currency && e.accountId == sourceId
          && e.sentAccountId.Some? && s.accounts[e.sentAccountId.value].accountNumber == destinationNumber
          && e.description.None? && e.userId.None?)
  {
  }

  /**
   * The entry a transfer builds breaks the NOT NULL constraint of
   * `user_id`, so a database that enforces it refuses every such commit.
   */
  lemma TransferEntryBreaksNotNull(s: BankState, me: nat, sourceId: nat, destinationNumber: string, amount: Option<int>, commitOk: bool)
    requires WellFormed(s)
    ensures var r := TransferMoney(s, me, sourceId, destinationNumber, amount, commitOk);
      r.result.Success? ==> !SatisfiesNotNull(r.result.value)
  {
  }

  /** After a committed transfer between two accounts the source balance is not negative. */
  lemma TransferLeavesSourceNonNegative(s: BankState, me: nat, sourceId: nat, destinationNumber: string, amount: Option<int>, commitOk: bool)
    requires WellFormed(s)
    ensures var r := TransferMoney(s, me, sourceId, destinationNumber, amount, commitOk);
      r.result.Success? && r.result.value.sentAccountId != Some(sourceId) ==> r.state.accounts[sourceId].balance >= 0
  {
  }

  /** No account is overdrawn. */
  predicate NoOverdraft(accounts: map<nat, Account>) {
    forall id :: id in accounts ==> accounts[id].balance >= 0
  }

  /** With an amount that is not negative, a transfer overdraws no account. */
  lemma TransferKeepsNoOverdraft(s: BankState, me: nat, sourceId: nat, destinationNumber: string, amount: int, commitOk: bool)
    requires WellFormed(s) && NoOverdraft(s.accounts) && amount >= 0
    ensures NoOverdraft(TransferMoney(s, me, sourceId, destinationNumber, Some(amount), commitOk).state.accounts)
  {
    var r := TransferMoney(s, me, sourceId, destinationNumber, Some(amount), commitOk);
    if r.result.Success? {
      TransferMovesAmount(s, me, sourceId, destinationNumber, Some(amount), commitOk);
      TransferToOwnNumber(s, me, sourceId, Some(amount), commitOk);
    }
  }

  /**
   * The amount is never checked to be positive: transferring -100 from an
   * empty account to one holding 50 passes the funds check, credits the
   * source with 100 and leaves the destination at -50.
   */
  lemma NegativeAmountOverdrawsDestination()
    ensures
      var source := Account("Mine", "00000000000000000001", 0, "€", "Spain", Active, 1);
      var other := Account("Theirs", "00000000000000000002", 50, "€", "Spain", Active, 2);
      var s := BankState(map[1 := source, 2 := other], map[], []);
      WellFormed(s) &&
      var r := TransferMoney(s, 1, 1, "00000000000000000002", Some(-100), true);
      && r.result.Success?
      && r.state.accounts[1].balance == 100
      && r.state.accounts[2].balance == -50
  {
    var source := Account("Mine", "00000000000000000001", 0, "€", "Spain", Active, 1);
    var other := Account("Theirs", "00000000000000000002", 50, "€", "Spain", Active, 2);
    var s := BankState(map[1 := source, 2 := other], map[], []);
    assert source.accountNumber[19] != other.accountNumber[19];
    assert WellFormed(s);
    var found := AccountWithNumber(s.accounts, "00000000000000000002");
    assert s.accounts[2].accountNumber == "00000000000000000002";
    assert found.value != 1 by {
      assert s.accounts[1].accountNumber[19] != "00000000000000000002"[19];
    }
  }

  // ---------------------------------------------------------------- accounts

  /** `update_account`: the owner or an admin may rename; a missing name keeps the old one. */
  function UpdateAccount(s: BankState, me: nat, id: nat, name: Option<string>): (r: Response<Account>)
    requires WellFormed(s) && me in s.users
    ensures WellFormed(r.state)
    ensures r.result.Success? <==> GetAccount(s, me, id).Success?
    ensures r.result.Failure? ==> r.state == s && r.result == GetAccount(s, me, id)
  {
    match GetAccount(s, me, id)
    case Failure(e) => Reject(s, e)
    case Success(a) =>
      var renamed := a.(name := name.GetOr(a.name));
      Response(s.(accounts := s.accounts[id := renamed]), Success(renamed))
  }

  /** Renaming changes the name of that one account and nothing else. */
  lemma UpdateAccountChangesOnlyName(s: BankState, me: nat, id: nat, name: Option<string>)
    requires WellFormed(s) && me in s.users
    ensures var r := UpdateAccount(s, me, id, name);
      r.result.Success? ==>
        && r.state.users == s.users && r.state.ledger == s.ledger
        && r.state.accounts.Keys == s.accounts.Keys
        && r.state.accounts[id] == s.accounts[id].(name := name.GetOr(s.accounts[id].name))
        && r.result.value == r.state.accounts[id]
        && forall other :: other in s.accounts && other != id ==> r.state.accounts[other] == s.accounts[other]
  {
  }

  /** `delete_account`: the owner or an admin may set the status to Inactive; the row stays. */
  function DeleteAccount(s: BankState, me: nat, id: nat): (r: Response<()>)
    requires WellFormed(s) && me in s.users
    ensures WellFormed(r.state)
    ensures r.result.Success? <==> GetAccount(s, me, id).Success?
    ensures r.result.Failure? ==> r.state == s && r.result.error == GetAccount(s, me, id).error
  {
    match GetAccount(s, me, id)
    case Failure(e) => Reject(s, e)
    case Success(a) => Response(s.(accounts := s.accounts[id := a.(status := Inactive)]), Success(()))
  }

  /** Deleting an account is `Account.deactivate` on that row: only its status changes. */
  lemma DeleteAccountDeactivates(s: BankState, me: nat, id: nat)
    requires WellFormed(s) && me in s.users
    ensures var r := DeleteAccount(s, me, id);
      r.result.Success? ==>
        && r.state == s.(accounts := s.accounts[id := s.accounts[id].Deactivate().0])
        && TotalBalance(r.state.accounts) == TotalBalance(s.accounts)
  {
    var r := DeleteAccount(s, me, id);
    if r.result.Success? {
      TotalBalanceUpdate(s.accounts, id, s.accounts[id].Deactivate().0);
    }
  }

  /** Deleting twice is deleting once: the second request succeeds and changes nothing. */
  lemma DeleteAccountIdempotent(s: BankState, me: nat, id: nat)
    requires WellFormed(s) && me in s.users
    ensures var r := DeleteAccount(s, me, id);
      DeleteAccount(r.state, me, id) == Response(r.state, r.result)
  {
    var r := DeleteAccount(s, me, id);
    if r.result.Success? {
      assert r.state.accounts[id].status == Inactive;
      assert r.state.accounts[id := r.state.accounts[id].(status := Inactive)] == r.state.accounts;
    }
  }

  /** A deleted account disappears from every listing. */
  lemma DeletedAccountNotListed(s: BankState, me: nat, id: nat, viewer: nat)
    requires WellFormed(s) && me in s.users && viewer in s.users
    ensures var r := DeleteAccount(s, me, id);
      r.result.Success? ==> id !in GetAccounts(r.state, viewer)
  {
  }

  // ------------------------------------------------------------------- users

  /** The fields a `PUT /users/<id>` request may carry; `passwordHash` is already hashed. */
  datatype UserPatch = UserPatch(username: Option<string>, email: Option<string>, passwordHash: Option<string>, admin: Option<bool>)

  /** The user with each field the patch carries replaced. */
  function Patched(u: User, patch: UserPatch): User {
    u.(username := patch.username.GetOr(u.username),
       email := patch.email.GetOr(u.email),
       passwordHash := patch.passwordHash.GetOr(u.passwordHash),
       admin := patch.admin.GetOr(u.admin))
  }

  /**
   * `update_user`: behind the admin guard, a partial update of one user; the
   * commit fails when the new username or email belongs to another user.
   */
  function UpdateUser(s: BankState, me: nat, id: nat, patch: UserPatch): (r: Response<User>)
    requires WellFormed(s) && me in s.users
    ensures WellFormed(r.state)
    ensures r.result.Failure? ==> r.state == s
    ensures !s.users[me].admin ==> r.result == Failure(Forbidden)
    ensures s.users[me].admin && id !in s.users ==> r.result == Failure(NotFound)
    ensures r.result.Success? <==>
      s.users[me].admin && id in s.users && UniqueUserKeys(s.users[id := Patched(s.users[id], patch)])
  {
    if AdminRequired(s.users[me]) != Admitted then Reject(s, Forbidden)
    else if id !in s.users then Reject(s, NotFound)
    else
      var updated := Patched(s.users[id], patch);
      var users := s.users[id := updated];
      if !UniqueUserKeys(users) then Reject(s, DuplicateKey)
      else Response(s.(users := users), Success(updated))
  }

  /**
   * A successful update sets exactly the fields the request carries, keeps
   * the others and the status, and touches no other row.
   */
  lemma UpdateUserIsPartial(s: BankState, me: nat, id: nat, patch: UserPatch)
    requires WellFormed(s) && me in s.users
    ensures var r := UpdateUser(s, me, id, patch);
      r.result.Success? ==>
        var before := s.users[id];
        var after := r.state.users[id];
        && r.state.accounts == s.accounts && r.state.ledger == s.ledger
        && r.state.users.Keys == s.users.Keys
        && after.username == (if patch.username.Some? then patch.username.value else before.username)
        && after.email == (if patch.email.Some? then patch.email.value else before.email)
        && after.passwordHash == (if patch.passwordHash.Some? then patch.passwordHash.value else before.passwordHash)
        && after.admin == (if patch.admin.Some? then patch.admin.value else before.admin)
        && after.status == before.status
        && forall other :: other in s.users && other != id ==> r.state.users[other] == s.users[other]
  {
  }

  /** `delete_user`: behind the admin guard, set that user's status to Inactive. */
  function DeleteUser(s: BankState, me: nat, id: nat): (r: Response<()>)
    requires WellFormed(s) && me in s.users
    ensures WellFormed(r.state)
    ensures r.result.Failure? ==> r.state == s
    ensures r.result.Success? <==> s.users[me].admin && id in s.users
    ensures r.result == Failure(Forbidden) <==> !s.users[me].admin
  {
    if AdminRequired(s.users[me]) != Admitted then Reject(s, Forbidden)
    else if id !in s.users then Reject(s, NotFound)
    else Response(s.(users := s.users[id := s.users[id].(status := Inactive)]), Success(()))
  }

  /** Deleting a user changes only that user's status; the user's accounts stay as they are. */
  lemma DeleteUserDeactivates(s: BankState, me: nat, id: nat)
    requires WellFormed(s) && me in s.users
    ensures var r := DeleteUser(s, me, id);
      r.result.Success? ==> r.state == s.(users := s.users[id := s.users[id].Deactivate().0])
  {
  }

  /** Deleting a user twice is deleting once. */
  lemma DeleteUserIdempotent(s: BankState, me: nat, id: nat)
    requires WellFormed(s) && me in s.users
    ensures var r := DeleteUser(s, me, id);
      DeleteUser(r.state, me, id) == Response(r.state, r.result)
  {
    var r := DeleteUser(s, me, id);
    if r.result.Success? {
      assert r.state.users[id := r.state.users[id].(status := Inactive)] == r.state.users;
    }
  }

  /** A deleted user can no longer log in and is no longer listed. */
  lemma DeletedUserLockedOut(s: BankState, me: nat, id: nat, password: string, checkHash: (string, string) -> bool)
    requires WellFormed(s) && me in s.users
    ensures var r := DeleteUser(s, me, id);
      r.result.Success? ==>
        && Login(r.state, s.users[id].email, password, checkHash) != Success(id)
        && id !in ActiveUsers(r.state.users)
  {
    var r := DeleteUser(s, me, id);
    if r.result.Success? {
      assert r.state.users[id].email == s.users[id].email;
      InactiveUserNeverLogsIn(r.state, id, password, checkHash);
    }
  }
}
