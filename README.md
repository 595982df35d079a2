# IE Bank back end: a Dafny model of the bank state and its handlers

This project models the in-memory bank state that the Flask handlers of the
IE Bank back end change: the users table, the accounts table and the
append-only ledger of transactions. It also models the handlers that read or
change them. The centre is `transfer_money`: it checks the request in a fixed
order, debits the source account, credits the destination account, appends
one TRANSFER entry and commits, and it rolls everything back on any exception.

Layout, one module per file:

- `wrappers.dfy` (`Wrappers`): `Option` and `Result`.
- `models.dfy` (`Models`): the records of `iebank_api/models.py` (`User`,
  `Account`, `Transaction`, `TransactionType`, the `Active`/`Inactive`
  status), their constructors with the defaults they fill in, `deactivate`,
  and the shape of the generated account number.
- `store.dfy` (`Store`): the database state (`BankState`), the column
  constraints (unique account number, unique username and email, ledger
  foreign keys), the lookups by number and by email, the inserts, and the
  total of all balances.
- `access.dfy` (`Access`): the read-only handler logic of
  `iebank_api/routes.py`. It holds the admin guard, the owner-or-admin rule,
  `get_account`, `get_accounts`, `get_users` and the `login` guard.
- `routes.dfy` (`Routes`): each state-changing handler as a function from the
  state before the request to the state after it and the answer
  (`transfer_money`, `update_account`, `delete_account`, `update_user`,
  `delete_user`), with the lemmas about them.
- `server.dfy` (`Server`): class `Bank` holds the tables as fields. It has
  one method per state-changing handler. Each method works step by step on
  the fields, and for a transfer it keeps a snapshot for the rollback. Each
  method's postcondition ties the new state and the answer to the function in
  `Routes`.

Modelling choices:

- Records are values in the tables. SQLAlchemy's identity map gives each row
  one object, so writing a field of a loaded object is the same as replacing
  that row's record in the table. A transfer to the source's own number
  updates one row twice, and the model does the same: it reads the
  destination after the debit.
- Money is an integer number of cents, not a float. The parsed amount is an
  `Option<int>`; `None` stands for `float(...)` raising.
- The current user is a parameter `me`, the key of a row in the users table.
  That row is what `login_required` and flask_login's user loader provide.
- `random.choices(string.digits, k=20)` is a parameter: the twenty indices
  into `"0123456789"` that it drew.
- werkzeug's `check_password_hash` is a function parameter `checkHash`.
  Passwords reach the model already hashed.
- Whether the database accepts the transfer's commit is a parameter
  `commitOk`. The success path is stated as "if the commit succeeds".

Behaviour of the code that the model keeps:

- The amount is never checked to be positive (iebank_api/routes.py:200). A
  negative amount passes the funds check at iebank_api/routes.py:212 and
  moves money from the destination to the source. It can leave the
  destination negative (`Routes.NegativeAmountOverdrawsDestination`), so
  "no balance is negative" is kept only for amounts that are not negative
  (`Routes.TransferKeepsNoOverdraft`).
- The destination account is looked up before ownership is checked
  (iebank_api/routes.py:204-209).
- The ownership check of a transfer has no admin clause
  (iebank_api/routes.py:209), while the account handlers admit admins
  (iebank_api/routes.py:161, 169, 180).
- An unknown source id (`get_or_404` at iebank_api/routes.py:203) and an
  amount that does not parse (iebank_api/routes.py:200) raise inside the
  `try`, so the handler answers them from its `except` branch with status 500
  (iebank_api/routes.py:231-233).
- A new account number is not compared with the stored ones
  (iebank_api/models.py:72). Only the unique column
  (iebank_api/models.py:53) stops a duplicate, and the insert then fails.
- The transfer's ledger entry gets no description and no `user_id`
  (iebank_api/routes.py:220-226), while the `user_id` column is declared
  NOT NULL (iebank_api/models.py:100). A database that enforces it refuses
  every transfer's commit (`Routes.TransferEntryBreaksNotNull`). The model
  keeps `userId` as an `Option`.
- Deleting a user or an account only sets its status to Inactive
  (iebank_api/routes.py:123, 183). A deleted account can still be read,
  renamed and used in transfers, because those handlers do not look at the
  status.

## Model

| member | source | states |
|---|---|---|
| `Models.TransactionTypeValuesDistinct` | iebank_api/models.py:80-83 | the three enumeration members have distinct values, so none is an alias |
| `Models.User.Deactivate` | iebank_api/models.py:37-42 | the status becomes Inactive and is returned; username, email, password hash and admin flag are unchanged |
| `Models.UserDeactivateIdempotent` | iebank_api/models.py:37-42 | deactivating a deactivated user changes nothing |
| `Models.NewUser` | iebank_api/models.py:30-35 | a new user has the given username, email, hash and admin flag, and status Active |
| `Models.NewUserDefaults` | iebank_api/models.py:30 | without an admin argument, a new user is not an admin and is Active |
| `Models.Account.Deactivate` | iebank_api/models.py:66-68 | the status becomes Inactive and is returned; every other field is unchanged |
| `Models.AccountDeactivateIdempotent` | iebank_api/models.py:66-68 | deactivating a deactivated account changes nothing |
| `Models.AccountNumber` | iebank_api/models.py:72 | the joined draws are exactly 20 characters, all decimal digits |
| `Models.AccountNumberRoundTrip` | iebank_api/models.py:72 | draws and numbers correspond one to one: every 20-digit number can be generated, and distinct draws give distinct numbers |
| `Models.NewAccount` | iebank_api/models.py:70-77 | a new account is Active, has a 20-digit number made from the draws, and has the given name, currency, country, owner and balance |
| `Models.NewAccountDefaults` | iebank_api/models.py:70 | without a balance argument, a new Active account has balance 0 |
| `Models.NewTransaction` | iebank_api/models.py:109-116 | the entry stores exactly the given amount, currency, account, type, destination, user and description |
| `Models.NewTransactionDefaults` | iebank_api/models.py:109 | destination account, description and user default to none |
| `Store.AccountWithNumber` | iebank_api/routes.py:204 | returns an account holding that number, or none exactly when no account holds it |
| `Store.UserWithEmail` | iebank_api/routes.py:63 | returns the user with that email, or none exactly when no user has it |
| `Store.InsertAccount` | iebank_api/models.py:53 | the insert succeeds iff no stored account has the number; on success exactly that row is added; unique numbers and ledger references hold afterwards |
| `Store.InsertUser` | iebank_api/models.py:15-16 | the insert succeeds iff the username and the email are both unused; on success exactly that row is added; uniqueness holds afterwards |
| `Store.TotalBalanceUpdate` | iebank_api/routes.py:216-217 | replacing one account changes the total by exactly the change in its balance |
| `Store.TotalBalanceInsert` | iebank_api/models.py:75 | inserting an account adds its balance to the total |
| `Access.AdminRequiredAsWrittenCrashes` | iebank_api/routes.py:17-23 | the guard as written reads `is_admin`, which no user object has, so it fails every request, an admin's included |
| `Access.AdminRequired` | iebank_api/routes.py:17-23 | the guard reading the `admin` column admits a user iff the user is an admin, and refuses everyone else |
| `Access.GetAccount` | iebank_api/routes.py:157-163 | succeeds iff the account exists and the user owns it or is an admin, and then returns it; NotFound iff it does not exist; Unauthorized iff it exists and the rule fails |
| `Access.GetAccounts` | iebank_api/routes.py:145-154 | lists exactly the Active accounts the user may access: every Active account for an admin, and only the user's own for anyone else |
| `Access.ActiveUsers` | iebank_api/routes.py:88 | keeps exactly the Active users, unchanged |
| `Access.GetUsers` | iebank_api/routes.py:84-88 | succeeds iff the current user is an admin, and then lists exactly the Active users; otherwise Forbidden |
| `Access.Login` | iebank_api/routes.py:52-72 | succeeds only for the user with that email whose hash matches and who is Active; fails with InvalidCredentials when no such user exists |
| `Access.InactiveUserNeverLogsIn` | iebank_api/routes.py:66 | an Inactive user never logs in, whatever the password and the hash check |
| `Routes.TransferMoney` | iebank_api/routes.py:189-233 | a transfer succeeds iff the amount parses, the source exists, the destination number exists, the user owns the source, the balance is not below the amount, and the commit succeeds; any failure leaves the state as it was; users never change; the constraints are preserved |
| `Routes.TransferErrorOrder` | iebank_api/routes.py:200-213 | the first failing check decides the error: InvalidAmount, then NotFound, then DestinationNotFound, then Unauthorized, then InsufficientFunds, then CommitFailed |
| `Routes.TransferUnknownDestination` | iebank_api/routes.py:204-207 | an unknown destination number is refused with DestinationNotFound before ownership and funds are checked, whoever asks; nothing changes |
| `Routes.TransferHasNoAdminException` | iebank_api/routes.py:209-210 | an admin who does not own the source is refused with Unauthorized and nothing changes, although the access rule lets that admin read, rename and delete the account |
| `Routes.TransferInsufficientFunds` | iebank_api/routes.py:212-213 | a source balance below the amount is refused with InsufficientFunds and nothing changes |
| `Routes.TransferMovesAmount` | iebank_api/routes.py:216-217 | between two accounts, a committed transfer lowers the source by exactly the amount and raises the destination by exactly the amount; the destination holds the given number; no other account and no other field changes |
| `Routes.TransferToOwnNumber` | iebank_api/routes.py:203-228 | a committed transfer to the source's own number leaves every balance unchanged but still appends one entry, naming the source as destination |
| `Routes.MoveConservesTotal` | iebank_api/routes.py:216-217 | debiting one account and crediting another (or the same one) by the same amount leaves the total unchanged |
| `Routes.TransferConservesTotal` | iebank_api/routes.py:189-233 | whatever its outcome, a transfer leaves the sum of all balances unchanged |
| `Routes.TransferAppendsOneEntry` | iebank_api/routes.py:219-228 | a committed transfer appends exactly one entry and keeps the earlier ones; the entry has type TRANSFER, the amount, the source's currency, the source as account and the destination as sent-to account, and no description or user; a refused transfer appends nothing |
| `Routes.TransferEntryBreaksNotNull` | iebank_api/routes.py:220-226 | the entry that a committed transfer records has no user, which breaks the NOT NULL `user_id` column |
| `Routes.TransferLeavesSourceNonNegative` | iebank_api/routes.py:212-216 | after a committed transfer between two different accounts, the source balance is not negative |
| `Routes.TransferKeepsNoOverdraft` | iebank_api/routes.py:200-217 | if no balance is negative and the amount is not negative, no balance is negative after the transfer |
| `Routes.NegativeAmountOverdrawsDestination` | iebank_api/routes.py:200-217 | a transfer of -100 from an empty account to one holding 50 is committed, and leaves 100 and -50 |
| `Routes.UpdateAccount` | iebank_api/routes.py:165-174 | a rename succeeds iff `get_account` would; a failure has the same error as `get_account` and changes nothing |
| `Routes.UpdateAccountChangesOnlyName` | iebank_api/routes.py:172 | a rename changes only that account's name, which is the given name or stays the old one; the renamed account is returned |
| `Routes.DeleteAccount` | iebank_api/routes.py:176-185 | a delete succeeds iff the account exists and the user owns it or is an admin; a failure changes nothing |
| `Routes.DeleteAccountDeactivates` | iebank_api/routes.py:183 | a delete is exactly `Account.deactivate` on that row and leaves the total balance unchanged |
| `Routes.DeleteAccountIdempotent` | iebank_api/routes.py:176-185 | repeating a delete gives the same answer and changes nothing more |
| `Routes.DeletedAccountNotListed` | iebank_api/routes.py:149-154 | after a delete, the account appears in nobody's account listing |
| `Routes.UpdateUser` | iebank_api/routes.py:105-117 | a non-admin is Forbidden; an unknown id is NotFound; otherwise the update succeeds iff the patched usernames and emails stay unique; a failure changes nothing |
| `Routes.UpdateUserIsPartial` | iebank_api/routes.py:110-114 | each field the request carries is set, each other field and the status are kept, and no other row changes |
| `Routes.DeleteUser` | iebank_api/routes.py:119-125 | succeeds iff the current user is an admin and the user exists; Forbidden iff not an admin; a failure changes nothing |
| `Routes.DeleteUserDeactivates` | iebank_api/routes.py:123 | a user delete is exactly `User.deactivate` on that row; the user's accounts are untouched |
| `Routes.DeleteUserIdempotent` | iebank_api/routes.py:119-125 | repeating a user delete gives the same answer and changes nothing more |
| `Routes.DeletedUserLockedOut` | iebank_api/routes.py:119-125 | after a user delete, that user can no longer log in and is no longer listed |
| `Server.Bank.InsertUser` | iebank_api/models.py:15-16 | the store insert of a user, with the next primary key, matches `Store.InsertUser` and keeps the invariant |
| `Server.Bank.InsertAccount` | iebank_api/models.py:53 | the store insert of an account, with the next primary key, matches `Store.InsertAccount` and adds its balance to the total |
| `Server.Bank.TransferMoney` | iebank_api/routes.py:189-233 | the checks and then the update of the fields give the state and answer of `Routes.TransferMoney`; the ledger only grows, by at most one entry; the total balance and the users are unchanged |
| `Server.Bank.ApplyTransfer` | iebank_api/routes.py:215-233 | if the commit succeeds, the debited and credited rows and the appended entry are kept; if it fails, the snapshot is restored and CommitFailed is returned |
| `Server.Bank.UpdateAccount` | iebank_api/routes.py:165-174 | the in-place rename gives the state and answer of `Routes.UpdateAccount` |
| `Server.Bank.DeleteAccount` | iebank_api/routes.py:176-185 | the in-place status change gives the state and answer of `Routes.DeleteAccount` |
| `Server.Bank.UpdateUser` | iebank_api/routes.py:105-117 | the field-by-field update gives the state and answer of `Routes.UpdateUser` |
| `Server.Bank.DeleteUser` | iebank_api/routes.py:119-125 | the in-place status change gives the state and answer of `Routes.DeleteUser` |

## Findings

| source | as written | input that shows it | evidently intended | confidence | as-written member | corrected member |
|---|---|---|---|---|---|---|
| iebank_api/routes.py:20 | `admin_required` tests `current_user.is_admin`, but the user model's column is `admin` (iebank_api/models.py:19), and flask_login's `UserMixin` adds no `is_admin`. The attribute lookup raises, so `get_users`, `create_user`, `update_user` and `delete_user` fail for every caller | any request to `GET /users` from a user with `admin = true` | test the `admin` column: admit admins and refuse everyone else with 403 | not executed | `Access.AdminRequiredAsWrittenCrashes` | `Access.AdminRequired` |

The rest of the model uses the corrected guard.

## Left out

- Flask routing, JSON bodies, HTTP status codes (an `Error` value stands for each error answer), CORS, `render_template`, the debug `print`s and the `format_*` helpers with their `strftime` timestamps.
- flask_login sessions, `login_user`/`logout_user` and the user loader. The current user is a parameter. A request to an admin route with no logged-in user is not modelled, because those routes lack `login_required`.
- werkzeug password hashing. `generate_password_hash` happens before the model sees a password, and `check_password_hash` is the parameter `checkHash`.
- The randomness of `random.choices`. Its draws are a parameter.
- SQLAlchemy sessions, persistence, configuration and environment selection (config.py, iebank_api/__init__.py). Primary keys come from counters in `Server.Bank`.
- The `created_at` timestamps (clock reads), and the length limits of the `String(n)` columns, which SQLite does not enforce.
- Floating point: balances and amounts are integers (cents). NaN, infinities and rounding of `float(...)` and `db.Float` are not modelled.
- Row locking and concurrent transfers. The code has none and the model runs one request at a time.
- An explicit JSON `null` in `update_user` or `update_account` (a present key whose value is null) is not modelled. The model's patch only says whether each field is present.
- The foreign key from an account to its owner is not part of the store's invariant. SQLite does not enforce foreign keys by default.
- `register_user`, `create_user` and `create_account` are there only as the store inserts `Server.Bank.InsertUser` and `Server.Bank.InsertAccount`. As written, `create_account` passes `user=current_user` to an `Account.__init__` that has no such parameter (iebank_api/routes.py:139), so it would raise before inserting. `logout` and the index page have no state to model.
- Whether the database accepts a transfer's commit is a parameter. The model does not derive it from the NOT NULL constraint, which the entry always breaks. Deriving it would make every success statement vacuous.
