# Group balance ledger: a Dafny model

The bot keeps one ledger per deployment. It holds a `users` table with one balance per
Telegram user and an append-only `transactions` table that audits every
transfer. This project models the core of that ledger:

- the `User` and `Transaction` records, with their derived names and the rendered history entry;
- the user store: lookups by id, by account name and by Telegram id; the listing ordered by name; create, balance update, delete and reset;
- the transaction log: append; the joined reads by id, most recent and per user, with their `ORDER BY` and `LIMIT`; count and clear;
- the transfer engine `transfer_by_user_id` and the balance and history reports built on it;
- the username-to-account mapping of the natural-language handler.

Both tables live in one class, `Storage.Database`:

- `users` is a `map<int, User>` keyed by the row id;
- `log` is a `seq<TxRow>` in insertion order;
- the two AUTOINCREMENT counters are fields next to them.

Every service operation takes this handle. Read-only queries are functions that read it, or methods with no `modifies` clause (the table scans and the reports built on them). Operations that write are methods with `modifies` clauses. Scans over the users table are loops in rowid order.

Money is a whole number of cents (`Money.Cents`). The `:.2f` rendering is written out exactly, with a parse round-trip.

`Valid()` is the store invariant that every operation keeps:

- users are filed under their own ids, all below the id counter;
- Telegram ids are unique, as the `UNIQUE` column requires;
- the log's ids increase and stay below the log counter.

Files:

- `wrappers.dfy`: `Option`, `Result`, and `Outcome` (pass, or fail with an error).
- `text.dfy`: `str.lower`, single-character `replace`, `str.title`, `str(int)`, and the BINARY collation.
- `money.dfy`: cents and their two-decimal text.
- `user_model.dfy`, `transaction_model.dfy`: the two records.
- `storage.dfy`: the two tables, the store invariant, and balance sums.
- `sorting.dfy`: ordering a list by a key.
- `user_service.dfy`, `transaction_service.dfy`, `balance_service.dfy`: the three services.
- `ai_handlers.dfy`: username mapping.
- `scenarios.dfy`: the balance-service test cases replayed on a two-account ledger.

## Model

| member | source | states |
|---|---|---|
| UserModel.ValidateBalance | bot/models/user.py:25-28 | fails exactly when the amount is negative |
| UserModel.CanDebit | bot/models/user.py:21-23 | holds exactly when the debited balance would pass `validate_balance` |
| UserModel.DisplayName | bot/models/user.py:30-41 | `@username`, else first name with the optional last name, else `User <telegram id>`; never empty |
| UserModel.Mention | bot/models/user.py:43-49 | always equals the display name |
| UserModel.UnnamedUsersDistinct | bot/models/user.py:40-41 | two users known only by distinct Telegram ids get distinct display names |
| UserModel.DisplayNameDependsOn | bot/models/user.py:33-41 | the display name reads only the username when set, else only the first and last names when the first name is set, else only the Telegram id |
| TransactionModel.NameOrLabel | bot/models/transaction.py:26-27 | an absent or empty name falls back to `User <id>`; the result is never empty |
| TransactionModel.FormatName | bot/models/transaction.py:43-46 | keeps the length and leaves no underscore |
| TransactionModel.FormatNameIdempotent | bot/models/transaction.py:43-46 | formatting a formatted name again changes nothing |
| TransactionModel.Timestamp | bot/models/transaction.py:29-36 | a non-empty text timestamp verbatim, otherwise `N/A`; never empty |
| TransactionModel.FormatDisplay | bot/models/transaction.py:24-41 | an entry starts with the money head, its amount field is the `:.2f` text of the amount, and it ends with the timestamp |
| TransactionModel.DisplayShowsAmount | bot/models/transaction.py:38-41 | the amount field of a rendered entry parses back to exactly the transferred cents |
| Text.Lower | bot/handlers/ai_handlers.py:144 | same length, each character lower-cased |
| Text.LowerIdempotent | bot/handlers/ai_handlers.py:144 | lower-casing twice is lower-casing once |
| Text.TitleAt | bot/models/transaction.py:46 | `str.title` character by character: upper case at a word start, lower case after a cased character |
| Text.TitleKeepsAbsent | bot/models/transaction.py:46 | a character without case that the text lacks is still absent after title-casing, and the length is kept |
| Text.TitleIdempotent | bot/models/transaction.py:46 | title-casing twice is title-casing once |
| Text.RemoveAppend | bot/handlers/ai_handlers.py:144 | removing a character distributes over concatenation |
| Text.RemoveLeavesNone | bot/handlers/ai_handlers.py:144 | no occurrence of the removed character remains |
| Text.RemoveAbsent | bot/handlers/ai_handlers.py:144 | removing a character the text lacks changes nothing |
| Text.NatToString | bot/models/user.py:41 | decimal digits with no leading zero, never empty |
| Text.IntToStringRoundTrip | bot/models/user.py:41 | the decimal rendering of an integer parses back to it |
| Text.IntToStringInjective | bot/models/user.py:41 | distinct integers render differently |
| Text.LexLeTotal | bot/services/user_service.py:35 | the BINARY collation orders every pair of names |
| Text.LexLeTransitive | bot/services/user_service.py:35 | the BINARY collation is transitive |
| Money.Fixed2RoundTrip | bot/services/balance_service.py:124 | the `:.2f` text of an amount of cents parses back to the same amount |
| Money.Fixed2Injective | bot/services/balance_service.py:124 | distinct amounts render differently |
| Storage.Database.constructor | bot/models/database.py:83-111 | both tables empty, both id counters at 1, invariant established |
| Storage.SetBalance | bot/services/user_service.py:53-56 | only the addressed user's balance changes; an absent id changes nothing |
| Storage.TotalBalanceSet | bot/services/user_service.py:53-56 | setting one balance changes the sum of balances by exactly the difference |
| Storage.ListingSum | bot/services/balance_service.py:120 | a listing of every stored user once has the store's total and its size |
| Sorting.InsertionSort | bot/services/balance_service.py:118 | the result is ordered by the comparison and is a permutation of the input |
| UserService.GetById | bot/services/user_service.py:17-23 | the stored user with that id, or None exactly when none is stored |
| UserService.GetByName | bot/services/user_service.py:25-31 | the lowest-id user with that name, or None exactly when nobody has it |
| UserService.GetByTelegramId | bot/services/balance_service.py:146 | None exactly when no user has that Telegram id, otherwise that user |
| UserService.NameOrder | bot/services/user_service.py:35 | ordering users by name is a total preorder |
| UserService.Scan | bot/services/user_service.py:35-36 | every stored user exactly once |
| UserService.GetAll | bot/services/user_service.py:33-36 | every stored user exactly once, ordered by name |
| UserService.Create | bot/services/user_service.py:38-46 | a taken Telegram id fails and changes nothing; otherwise the user is stored under the next id and returned |
| UserService.UpdateBalance | bot/services/user_service.py:48-58 | a negative balance raises and changes nothing; otherwise exactly that balance is set |
| UserService.Delete | bot/services/user_service.py:60-64 | the store loses exactly that id |
| UserService.Reset | bot/services/user_service.py:66-72 | same users, every balance set to the given value |
| UserService.ResetAllBalances | bot/services/user_service.py:66-72 | the store becomes the reset store |
| UserService.ResetTotal | bot/services/user_service.py:66-72 | after a reset the sum of balances is the value times the number of users |
| TransactionService.GetRowValue | bot/services/transaction_service.py:102-108 | the column's value when present, else the default |
| TransactionService.JoinRow | bot/services/transaction_service.py:110-122 | present exactly when both parties are stored; copies the row and attaches both names |
| TransactionService.NewestFirstSound | bot/services/transaction_service.py:64-67 | every joined transaction comes from a logged row |
| TransactionService.NewestFirstComplete | bot/services/transaction_service.py:64-67 | every logged row whose parties exist appears |
| TransactionService.NewestFirstDescending | bot/services/transaction_service.py:67 | the joined history is in strictly decreasing id order, newest first |
| TransactionService.NewestFirstReverses | bot/services/transaction_service.py:64-67 | with every party present, the history is the whole log reversed |
| TransactionService.GetById | bot/services/transaction_service.py:41-55 | the joined transaction with that id, or None exactly when no row with that id joins |
| TransactionService.Take | bot/services/transaction_service.py:68 | `LIMIT n`: a prefix of at most n items, everything for a negative n |
| TransactionService.GetRecent | bot/services/transaction_service.py:57-72 | the newest min(`limit`, n) of the n joined transactions, newest first: a prefix of the whole joined history of exactly that length, every omitted transaction older than every kept one; all of them for a negative limit |
| TransactionService.InvolvingFacts | bot/services/transaction_service.py:84 | the filter keeps exactly the transactions the user sends or receives, in order |
| TransactionService.GetByUser | bot/services/transaction_service.py:74-90 | the newest min(`limit`, n) of the n joined transactions involving the user: a prefix of the user's newest-first history of exactly that length, every omitted one older than every kept one; all of them for a negative limit |
| TransactionService.GetCount | bot/services/transaction_service.py:97-100 | the number of stored rows, joined or not |
| TransactionService.Create | bot/services/transaction_service.py:17-39 | appends exactly one row with the next id and returns it joined |
| TransactionService.DeleteAll | bot/services/transaction_service.py:92-95 | the log is empty and the count is 0 |
| BalanceService.TransferByUserId | bot/services/balance_service.py:30-104 | succeeds exactly when no check refuses; a refusal changes nothing and reports the first failed check; success stores the moved balances and appends one audit row with both new balances |
| BalanceService.TransferAcceptedIff | bot/services/balance_service.py:53-74 | accepted exactly when the amount is positive, both parties exist and differ, the sender holds the amount and the receiver's new balance is not negative |
| BalanceService.TransferConserves | bot/services/balance_service.py:76-82 | an accepted transfer leaves the sum of all balances unchanged |
| BalanceService.TransferKeepsBalancesNonNegative | bot/services/balance_service.py:69-82 | both parties end at or above zero, no one else changes, and a store without negative balances stays so |
| BalanceService.TransferByName | tests/test_balance_service.py:30-56 | names resolve to the first user with that name; an unknown sender or receiver is reported; otherwise it is the transfer between the resolved ids: a refusal changes no table and no id counter and returns no transaction, a success reports both display names, moves the balances, appends one audit row, uses one transaction id and returns that row joined |
| BalanceService.FirstNamedUnique | bot/services/user_service.py:27-31 | a name resolves to at most one user |
| BalanceService.ResetAllBalances | tests/test_balance_service.py:73-81 | every balance becomes the value and the log is empty |
| BalanceService.GetAllBalances | bot/services/balance_service.py:110-129 | no users gives the empty report; otherwise every user once, highest balance first, one numbered line each, with the store's total and user count |
| BalanceService.SumBalances | bot/services/balance_service.py:120 | the sum of the listed balances |
| BalanceService.BalanceLines | bot/services/balance_service.py:123-124 | one numbered line per user, counting from 1 |
| BalanceService.GetTransactionHistory | bot/services/balance_service.py:131-142 | the empty report exactly when the recent query returns nothing (an empty log, no joined row, or `LIMIT 0`); otherwise exactly the recent query's transactions, one numbered line each, newest first, at most `limit` |
| BalanceService.GetUserBalance | bot/services/balance_service.py:144-147 | None exactly when no user has that Telegram id, otherwise that user's balance |
| BalanceService.TransferAsWritten | bot/services/balance_service.py:76-93 | as written, a transfer reports success exactly when the all-or-nothing engine accepts it, and then moves the same balances and appends the same audit row; on any failure the log and its counter stay as they were |
| BalanceService.AsWrittenPartialCommit | bot/services/balance_service.py:76-82 | as written, a failed transfer changes the store exactly when the receiver's balance write is refused; then the amount has left the ledger unlogged |
| BalanceService.AsWrittenLosesMoney | bot/services/balance_service.py:76-82 | a $5.00 transfer to a receiver at -$10.00 debits the sender, credits no one and logs nothing |
| AiHandlers.MapUsernameToPerson | bot/handlers/ai_handlers.py:136-155 | an absent or empty username maps to no one; any result is one of the two accounts |
| AiHandlers.MapUsernameExactly | bot/handlers/ai_handlers.py:148-155 | the usernames reaching each account, in both directions |
| AiHandlers.MapIgnoresCase | bot/handlers/ai_handlers.py:144 | usernames equal up to letter case map alike |
| AiHandlers.MapIgnoresAt | bot/handlers/ai_handlers.py:144 | an `@` anywhere in the username changes nothing |
| AiHandlers.MapUsernameIdempotent | bot/handlers/ai_handlers.py:148-153 | an account identifier maps to itself |
| Scenarios.TransferSucceeds | tests/test_balance_service.py:30-35 | $100.00 from person_a: accepted with an audit entry, balances $900.00 and $1100.00 |
| Scenarios.TransferInsufficientFunds | tests/test_balance_service.py:37-41 | $2000.00 is refused for insufficient funds and the balance stays $1000.00 |
| Scenarios.TransferNegativeAmount | tests/test_balance_service.py:43-46 | a negative amount is refused as not positive |
| Scenarios.TransferSameUser | tests/test_balance_service.py:48-51 | a transfer to oneself is refused |
| Scenarios.TransferNonexistentUser | tests/test_balance_service.py:53-56 | an unknown receiver is reported as not found |
| Scenarios.BalancesOfNewLedger | tests/test_balance_service.py:58-62 | the report lists exactly the two accounts, so "Person A" and "Person B" each head one numbered line; both show $1000.00, and the total is $2000.00 over two users |
| Scenarios.HistoryAfterTwoTransfers | tests/test_balance_service.py:64-71 | both transfers listed, newest first |
| Scenarios.ResetAfterTransfer | tests/test_balance_service.py:73-81 | both balances $500.00 and the history empty |
| Scenarios.MultipleTransfers | tests/test_balance_service.py:83-89 | final balances $750.00 and $1250.00 |

## Left out

- I/O is left out: Telegram, the LLM service, logging and the SQLite connection. The tables are in-memory values.
- Each `execute` commits on its own. Concurrency between handlers is not modelled.
- Timestamps: `created_at` is a text parameter (`now`) of the transfer, and history order is insertion order. `ORDER BY created_at DESC` agrees with insertion order only while the clock does not go backwards. `CURRENT_TIMESTAMP` has one-second resolution, so transfers within the same second tie, and SQL leaves their order unspecified. The model breaks those ties by insertion order too: newer rows come first. The `strftime` branch for `datetime` values is not modelled, because the table returns text.
- Floating point is not modelled: balances and amounts are exact cents. `:.2f` rounding of values finer than a cent does not arise.
- Case mapping is ASCII only. Python's `str.lower` and `str.title` also map non-ASCII letters.
- Message texts are not modelled: a transfer's message is a `BalanceService.Message` value naming the outcome and the values it shows, not its emoji and wording.
- The generic `except Exception` branch of the transfer is modelled only for the one exception the engine can raise, the refused balance write. Database errors are not modelled.
- Source versions disagree, and the model reconciles them. `user_service.py` looks users up by a `name` column, and the join reads `u.name`. The schema in `database.py` has Telegram fields and no `name`. `balance_service.py` calls `get_by_telegram_id`, which `user_service.py` lacks, and passes `message_id`/`group_id` to a `create` that does not take them. The model's `User` has both the account name and the Telegram profile, and the log row keeps both ids.
- `transfer`, `get_balance` and the admin `reset_all_balances` of the balance-service tests do not exist in `balance_service.py`. They are modelled as `BalanceService.TransferByName`, a direct read of the balance, and `BalanceService.ResetAllBalances`.
- Sorting.InsertionSort: stability is not stated. `list.sort` is stable, so users with equal balances keep the name order of `get_all`. The insertion places each element after its equals, but no lemma states it.
- BalanceService.TransferByUserId: checks the receiver's balance write before the first write, where the source writes the sender first (see Findings).
- Foreign keys are not enforced, as SQLite does by default. Deleting a user leaves their transactions stored but out of every joined read.
- The rest of the bot is not part of this model: handlers other than the username mapping, the AI service, the bot service and configuration.

## Findings

| source | as written | input that shows it | evidently intended | confidence | as-written member | corrected member |
|---|---|---|---|---|---|---|
| bot/services/balance_service.py:76-82 | the sender's new balance is written and committed, then the receiver's `update_balance` raises for a negative result and the error is caught; the debit stays, nothing is credited or logged | sender at $100.00, receiver at -$10.00 (a negative balance `create` and `reset_all_balances` accept), transfer $5.00: the sender ends at $95.00, the receiver stays at -$10.00 and $5.00 leaves the ledger | the comment marks the transfer atomic: a refused transfer changes nothing | high, not executed | BalanceService.AsWrittenLosesMoney | BalanceService.TransferByUserId |
