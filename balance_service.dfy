/** The transfer engine and the read-only reports built on the two tables. */
module BalanceService {
  import opened Wrappers
  import opened Text
  import opened Money
  import opened UserModel
  import opened TransactionModel
  import opened Storage
  import UserService
  import TransactionService
  import Sorting

  /** What a transfer reports, by kind; the user-facing wording is left out. */
  datatype Message =
    | Transferred(amount: Cents, fromName: string, toName: string)
    | AmountNotPositive
    | SenderNotFound
    | ReceiverNotFound
    | SelfTransfer
    | InsufficientFunds(holder: string, balance: Cents)
    | TransferFailed(error: BalanceError)

  /** `TransferResult(success, message, transaction)`. */
  datatype TransferResult = TransferResult(success: bool, message: Message, transaction: Option<Transaction>)

  /** The checks of `transfer_by_user_id`, first failure wins: the amount,
      the sender, the receiver, sender equal to receiver, then funds. */
  function Validation(users: map<int, User>, fromId: int, toId: int, amount: Cents): Option<Message>
  {
    if amount <= 0 then Some(AmountNotPositive)
    else if fromId !in users then Some(SenderNotFound)
    else if toId !in users then Some(ReceiverNotFound)
    else if users[fromId].id == users[toId].id then Some(SelfTransfer)
    else if !CanDebit(users[fromId], amount) then
      Some(InsufficientFunds(DisplayName(users[fromId]), users[fromId].balance))
    else None
  }

  /** Why a transfer is refused, if it is: a failed check, or the receiver's
      balance write that `update_balance` would refuse (a receiver already
      below zero by more than the amount). */
  function Rejection(users: map<int, User>, fromId: int, toId: int, amount: Cents): Option<Message>
  {
    var v := Validation(users, fromId, toId, amount);
    if v.Some? then v
    else
      var check := ValidateBalance(users[toId].balance + amount);
      if check.Fail? then Some(TransferFailed(check.error)) else None
  }

  /** The store after a transfer: the sender debited, the receiver credited. */
  function Moved(users: map<int, User>, fromId: int, toId: int, amount: Cents): map<int, User>
    requires fromId in users && toId in users
  {
    var debited := SetBalance(users, fromId, users[fromId].balance - amount);
    SetBalance(debited, toId, users[toId].balance + amount)
  }

  /** A transfer is accepted exactly when the amount is positive, both
      parties are stored and distinct, the sender holds the amount and the
      receiver's new balance is not negative. */
  lemma TransferAcceptedIff(users: map<int, User>, fromId: int, toId: int, amount: Cents)
    requires FiledById(users)
    ensures Rejection(users, fromId, toId, amount).None? <==>
      && amount > 0
      && fromId in users && toId in users && fromId != toId
      && users[fromId].balance >= amount
      && users[toId].balance + amount >= 0
  {
  }

  /** A transfer moves money between the two parties only: the sum of all
      balances is unchanged. */
  lemma TransferConserves(users: map<int, User>, fromId: int, toId: int, amount: Cents)
    requires FiledById(users)
    requires Rejection(users, fromId, toId, amount).None?
    ensures TotalBalance(Moved(users, fromId, toId, amount)) == TotalBalance(users)
  {
    var debited := SetBalance(users, fromId, users[fromId].balance - amount);
    TotalBalanceSet(users, fromId, users[fromId].balance - amount);
    TotalBalanceSet(debited, toId, users[toId].balance + amount);
  }

  /** An accepted transfer leaves both parties at or above zero, changes no
      one else, and keeps a store without negative balances so. */
  lemma TransferKeepsBalancesNonNegative(users: map<int, User>, fromId: int, toId: int, amount: Cents)
    requires FiledById(users)
    requires Rejection(users, fromId, toId, amount).None?
    ensures var after := Moved(users, fromId, toId, amount);
      && after.Keys == users.Keys
      && after[fromId].balance == users[fromId].balance - amount >= 0
      && after[toId].balance == users[toId].balance + amount >= 0
      && (forall k | k in users && k != fromId && k != toId :: after[k] == users[k])
      && (NonNegative(users) ==> NonNegative(after))
  {
  }

  /** The audit row a successful transfer appends. */
  function AuditRow(id: int, fromId: int, toId: int, amount: Cents, after: map<int, User>,
                    messageId: Option<int>, groupId: Option<int>, createdAt: string): TxRow
    requires fromId in after && toId in after
  {
    TxRow(id, fromId, toId, amount, after[fromId].balance, after[toId].balance, messageId, groupId, createdAt)
  }

  /** `transfer_by_user_id`, all or nothing: a refused transfer changes
      nothing; an accepted one debits the sender, credits the receiver and
      appends one audit row holding both new balances. The clock reading
      `now` becomes the row's `created_at`. */
  method TransferByUserId(db: Database, fromId: int, toId: int, amount: Cents,
                          messageId: Option<int>, groupId: Option<int>, now: string)
    returns (r: TransferResult)
    requires db.Valid()
    modifies db`users, db`log, db`nextTxId
    ensures db.Valid()
    ensures db.nextUserId == old(db.nextUserId)
    ensures var refusal := Rejection(old(db.users), fromId, toId, amount);
      && (r.success <==> refusal.None?)
      && (refusal.Some? ==>
            && r == TransferResult(false, refusal.value, None)
            && db.users == old(db.users) && db.log == old(db.log) && db.nextTxId == old(db.nextTxId))
      && (refusal.None? ==>
            && db.users == Moved(old(db.users), fromId, toId, amount)
            && db.log == old(db.log) + [AuditRow(old(db.nextTxId), fromId, toId, amount, db.users,
                                                 messageId, groupId, now)]
            && db.nextTxId == old(db.nextTxId) + 1
            && r.message == Transferred(amount, DisplayName(old(db.users)[fromId]),
                                        DisplayName(old(db.users)[toId]))
            && r.transaction == TransactionService.JoinRow(db.log[|db.log| - 1], db.users)
            && r.transaction.Some?)
  {
    if amount <= 0 {
      return TransferResult(false, AmountNotPositive, None);
    }
    var fromUser := UserService.GetById(db, fromId);
    var toUser := UserService.GetById(db, toId);
    if fromUser.None? {
      return TransferResult(false, SenderNotFound, None);
    }
    if toUser.None? {
      return TransferResult(false, ReceiverNotFound, None);
    }
    var sender, receiver := fromUser.value, toUser.value;
    if sender.id == receiver.id {
      return TransferResult(false, SelfTransfer, None);
    }
    if !CanDebit(sender, amount) {
      return TransferResult(false, InsufficientFunds(DisplayName(sender), sender.balance), None);
    }
    var newFrom := sender.balance - amount;
    var newTo := receiver.balance + amount;
    // Every write's guard is checked before the first write.
    var check := ValidateBalance(newTo);
    if check.Fail? {
      return TransferResult(false, TransferFailed(check.error), None);
    }
    var _ := UserService.UpdateBalance(db, sender.id, newFrom);
    var _ := UserService.UpdateBalance(db, receiver.id, newTo);
    var t := TransactionService.Create(db, sender.id, receiver.id, amount, newFrom, newTo,
                                       messageId, groupId, now);
    return TransferResult(true, Transferred(amount, DisplayName(sender), DisplayName(receiver)), t);
  }

  /** The same engine reached by account names: each name resolves to the
      first user with that name, a name nobody has reports that party as not
      found, and otherwise the transfer is the one between the resolved ids. */
  method TransferByName(db: Database, fromName: string, toName: string, amount: Cents,
                        messageId: Option<int>, groupId: Option<int>, now: string)
    returns (r: TransferResult)
    requires db.Valid()
    modifies db`users, db`log, db`nextTxId
    ensures db.Valid()
    ensures amount <= 0 ==> r == TransferResult(false, AmountNotPositive, None)
    ensures amount > 0 && (forall k | k in old(db.users) :: old(db.users)[k].name != fromName) ==>
      r == TransferResult(false, SenderNotFound, None)
    ensures (&& amount > 0
             && (exists k | k in old(db.users) :: old(db.users)[k].name == fromName)
             && (forall k | k in old(db.users) :: old(db.users)[k].name != toName)) ==>
      r == TransferResult(false, ReceiverNotFound, None)
    ensures !r.success ==> db.users == old(db.users) && db.log == old(db.log) && r.transaction.None?
    ensures db.nextTxId == old(db.nextTxId) + (if r.success then 1 else 0)
    ensures r.success ==> |db.log| == |old(db.log)| + 1
    ensures r.success ==> r.transaction.Some? && r.transaction == TransactionService.JoinRow(db.log[|db.log| - 1], db.users)
    ensures db.users.Keys == old(db.users).Keys
    ensures forall k | k in db.users :: db.users[k].name == old(db.users)[k].name
    ensures forall u, v | UserService.FirstNamed(old(db.users), fromName, u)
                       && UserService.FirstNamed(old(db.users), toName, v) ::
      && (r.success <==> Rejection(old(db.users), u.id, v.id, amount).None?)
      && (r.success ==> db.users == Moved(old(db.users), u.id, v.id, amount))
      && (!r.success ==> r.message == Rejection(old(db.users), u.id, v.id, amount).value)
      && (r.success ==> r.message == Transferred(amount, DisplayName(u), DisplayName(v)))
      && (r.success ==> db.log == old(db.log) + [AuditRow(old(db.nextTxId), u.id, v.id, amount, db.users,
                                                          messageId, groupId, now)])
  {
    if amount <= 0 {
      return TransferResult(false, AmountNotPositive, None);
    }
    var sender := UserService.GetByName(db, fromName);
    if sender.None? {
      return TransferResult(false, SenderNotFound, None);
    }
    var receiver := UserService.GetByName(db, toName);
    if receiver.None? {
      return TransferResult(false, ReceiverNotFound, None);
    }
    FirstNamedUnique(db.users, fromName, sender.value);
    FirstNamedUnique(db.users, toName, receiver.value);
    r := TransferByUserId(db, sender.value.id, receiver.value.id, amount, messageId, groupId, now);
  }

  /** Name resolution has one answer. */
  lemma FirstNamedUnique(users: map<int, User>, name: string, u: User)
    requires UserService.FirstNamed(users, name, u)
    ensures forall v | UserService.FirstNamed(users, name, v) :: v == u
  {
  }

  /** The administrative reset: every balance becomes `b` and the log is
      cleared, as one logical step. */
  method ResetAllBalances(db: Database, b: Cents)
    requires db.Valid()
    modifies db`users, db`log
    ensures db.Valid()
    ensures db.users == UserService.Reset(old(db.users), b) && db.log == []
  {
    UserService.ResetAllBalances(db, b);
    TransactionService.DeleteAll(db);
  }

  /** Orders users by balance, highest first (`sort(key=balance, reverse=True)`). */
  predicate BalanceGe(a: User, b: User)
  {
    a.balance >= b.balance
  }

  /** The report `get_all_balances` renders. */
  datatype BalanceReport =
    | NoUsers
    | Balances(rows: seq<User>, lines: seq<string>, total: Cents, count: nat)

  /** `f"{n}. {display_name}: ${balance:.2f}"` */
  function BalanceLine(n: int, u: User): string
  {
    IntToString(n) + ". " + DisplayName(u) + ": $" + Fixed2(u.balance)
  }

  /** `get_all_balances`: no users gives the "No users" report; otherwise
      every user once, highest balance first, one numbered line each, the
      total of all balances and the number of users. */
  method GetAllBalances(db: Database) returns (r: BalanceReport)
    requires db.Valid()
    ensures r.NoUsers? <==> db.users == map[]
    ensures r.Balances? ==>
      && IsListing(db.users, r.rows)
      && Sorting.SortedBy(r.rows, BalanceGe)
      && r.total == TotalBalance(db.users)
      && r.count == |db.users|
      && |r.lines| == |r.rows|
      && (forall i | 0 <= i < |r.rows| :: r.lines[i] == BalanceLine(i + 1, r.rows[i]))
  {
    var users := UserService.GetAll(db);
    ListingSum(db.users, users);
    if users == [] {
      return NoUsers;
    }
    assert Sorting.TotalPreorder(BalanceGe);
    var sorted := Sorting.InsertionSort(users, BalanceGe);
    ListingSum(db.users, sorted);
    var total := SumBalances(sorted);
    var lines := BalanceLines(sorted);
    return Balances(sorted, lines, total, |sorted|);
  }

  /** `sum(user.balance for user in users)` */
  method SumBalances(rows: seq<User>) returns (total: Cents)
    ensures total == SeqSum(rows)
  {
    total := 0;
    var i := 0;
    while i < |rows|
      invariant 0 <= i <= |rows|
      invariant total == SeqSum(rows[..i])
    {
      assert rows[..i + 1][..i] == rows[..i];
      total := total + rows[i].balance;
      i := i + 1;
    }
    assert rows[..i] == rows;
  }

  /** One numbered line per user, counting from 1. */
  method BalanceLines(rows: seq<User>) returns (lines: seq<string>)
    ensures |lines| == |rows|
    ensures forall i | 0 <= i < |rows| :: lines[i] == BalanceLine(i + 1, rows[i])
  {
    lines := [];
    var i := 0;
    while i < |rows|
      invariant 0 <= i <= |rows|
      invariant |lines| == i
      invariant forall j | 0 <= j < i :: lines[j] == BalanceLine(j + 1, rows[j])
    {
      lines := lines + [BalanceLine(i + 1, rows[i])];
      i := i + 1;
    }
  }

  /** The report `get_transaction_history` renders. */
  datatype History = NoTransactions | Recent(entries: seq<Transaction>, lines: seq<string>)

  /** `f"{n}. {transaction.format_display()}"` */
  function HistoryLine(n: int, t: Transaction): string
  {
    IntToString(n) + ". " + FormatDisplay(t)
  }

  /** `get_transaction_history`: "No transactions yet" when nothing joins,
      otherwise one numbered line per recent transaction, newest first and
      at most `limit` of them. */
  method GetTransactionHistory(db: Database, limit: int) returns (r: History)
    requires db.Valid()
    ensures db.log == [] ==> r == NoTransactions
    ensures r.NoTransactions? <==> TransactionService.GetRecent(db, limit) == []
    ensures r.Recent? ==>
      && r.entries == TransactionService.GetRecent(db, limit)
      && TransactionService.Descending(r.entries)
      && (0 <= limit ==> |r.lines| <= limit)
      && |r.lines| == |r.entries|
      && (forall i | 0 <= i < |r.entries| :: r.lines[i] == HistoryLine(i + 1, r.entries[i]))
  {
    var transactions := TransactionService.GetRecent(db, limit);
    if transactions == [] {
      return NoTransactions;
    }
    var lines: seq<string> := [];
    var i := 0;
    while i < |transactions|
      invariant 0 <= i <= |transactions|
      invariant |lines| == i
      invariant forall j | 0 <= j < i :: lines[j] == HistoryLine(j + 1, transactions[j])
    {
      lines := lines + [HistoryLine(i + 1, transactions[i])];
      i := i + 1;
    }
    return Recent(transactions, lines);
  }

  /** `get_user_balance`: the balance of the user with that Telegram id, or
      None when there is none. */
  method GetUserBalance(db: Database, telegramUserId: int) returns (r: Option<Cents>)
    requires db.Valid()
    ensures r.None? <==> forall k | k in db.users :: db.users[k].profile.telegramUserId != telegramUserId
    ensures forall k | k in db.users && db.users[k].profile.telegramUserId == telegramUserId ::
      r == Some(db.users[k].balance)
  {
    var user := UserService.GetByTelegramId(db, telegramUserId);
    r := if user.Some? then Some(user.value.balance) else None;
  }

  /** The two tables as plain values, for the transfer exactly as written. */
  datatype Tables = Tables(users: map<int, User>, log: seq<TxRow>, nextTxId: int)

  /** The transfer as the source writes it: each `update_balance` commits on
      its own, so when the receiver's write raises, the sender's debit has
      already been stored and no audit row is written. */
  function TransferAsWritten(t: Tables, fromId: int, toId: int, amount: Cents,
                             messageId: Option<int>, groupId: Option<int>, now: string): (r: (Message, Tables))
    ensures r.0.Transferred? <==> Rejection(t.users, fromId, toId, amount).None?
    ensures r.0.Transferred? ==>
      && r.1.users == Moved(t.users, fromId, toId, amount)
      && r.1.log == t.log + [AuditRow(t.nextTxId, fromId, toId, amount, r.1.users, messageId, groupId, now)]
    ensures !r.0.Transferred? ==> r.1.log == t.log && r.1.nextTxId == t.nextTxId
  {
    var v := Validation(t.users, fromId, toId, amount);
    if v.Some? then (v.value, t)
    else
      var sender, receiver := t.users[fromId], t.users[toId];
      var debited := SetBalance(t.users, fromId, sender.balance - amount);
      var newTo := receiver.balance + amount;
      if newTo < 0 then (TransferFailed(NegativeBalance), Tables(debited, t.log, t.nextTxId))
      else
        var credited := SetBalance(debited, toId, newTo);
        (Transferred(amount, DisplayName(sender), DisplayName(receiver)),
         Tables(credited, t.log + [AuditRow(t.nextTxId, fromId, toId, amount, credited, messageId, groupId, now)],
                t.nextTxId + 1))
  }

  /** As written, a transfer that reports failure leaves the store changed
      exactly in the case the all-or-nothing engine refuses for the
      receiver's balance: then the sender has lost the amount, nobody
      gained it and the log does not record it. */
  lemma AsWrittenPartialCommit(t: Tables, fromId: int, toId: int, amount: Cents,
                               messageId: Option<int>, groupId: Option<int>, now: string)
    requires FiledById(t.users)
    ensures var (m, after) := TransferAsWritten(t, fromId, toId, amount, messageId, groupId, now);
      && (after.users != t.users && !m.Transferred? <==>
            && Validation(t.users, fromId, toId, amount).None?
            && Rejection(t.users, fromId, toId, amount) == Some(TransferFailed(NegativeBalance)))
      && (after.users != t.users && !m.Transferred? ==>
            && after.log == t.log
            && TotalBalance(after.users) == TotalBalance(t.users) - amount < TotalBalance(t.users))
  {
    var (m, after) := TransferAsWritten(t, fromId, toId, amount, messageId, groupId, now);
    if Validation(t.users, fromId, toId, amount).None? {
      var sender := t.users[fromId];
      var debited := SetBalance(t.users, fromId, sender.balance - amount);
      assert debited[fromId].balance != sender.balance;
      TotalBalanceSet(t.users, fromId, sender.balance - amount);
    }
  }

  /** The input that shows it: a receiver stored at -$10.00 (a negative
      starting balance is accepted by `create` and by the reset) is sent
      $5.00 by a sender holding $100.00. As written the sender ends at
      $95.00, the receiver stays at -$10.00, nothing is logged and $5.00 has
      left the ledger; the all-or-nothing engine refuses the same transfer
      and changes nothing. */
  lemma AsWrittenLosesMoney()
    ensures
      var a := User(1, "person_a", Profile(101, None, Some("Ann"), None), 10000);
      var b := User(2, "person_b", Profile(102, None, Some("Bo"), None), -1000);
      var users := map[1 := a, 2 := b];
      var (m, after) := TransferAsWritten(Tables(users, [], 1), 1, 2, 500, None, None, "now");
      && m == TransferFailed(NegativeBalance)
      && after.users[1].balance == 9500 && after.users[2].balance == -1000
      && after.log == []
      && TotalBalance(after.users) == TotalBalance(users) - 500
      && Rejection(users, 1, 2, 500) == Some(TransferFailed(NegativeBalance))
  {
    var a := User(1, "person_a", Profile(101, None, Some("Ann"), None), 10000);
    var b := User(2, "person_b", Profile(102, None, Some("Bo"), None), -1000);
    var users := map[1 := a, 2 := b];
    TotalBalanceSet(users, 1, 9500);
  }
}
