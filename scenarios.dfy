/** The balance-service test cases, replayed on a fresh two-account ledger
    where both accounts start at $1000.00. */
module Scenarios {
  import opened Wrappers
  import opened Money
  import opened UserModel
  import opened Storage
  import opened Text
  import UserService
  import TransactionService
  import BalanceService

  function PersonA(balance: Cents): (u: User)
    ensures DisplayName(u) == "Person A"
  {
    User(1, "person_a", Profile(1001, None, Some("Person"), Some("A")), balance)
  }

  function PersonB(balance: Cents): (u: User)
    ensures DisplayName(u) == "Person B"
  {
    User(2, "person_b", Profile(1002, None, Some("Person"), Some("B")), balance)
  }

  /** A new ledger holding the two accounts at $1000.00 each. */
  method NewLedger() returns (db: Database)
    ensures fresh(db) && db.Valid()
    ensures db.users == map[1 := PersonA(100000), 2 := PersonB(100000)]
    ensures db.log == [] && db.nextTxId == 1
  {
    db := new Database();
    var a := UserService.Create(db, "person_a", PersonA(0).profile, 100000);
    var b := UserService.Create(db, "person_b", PersonB(0).profile, 100000);
  }

  /** A transfer by account name between the two accounts of a ledger
      whose names are "person_a" and "person_b". */
  method Pay(db: Database, fromId: int, toId: int, amount: Cents)
    returns (r: BalanceService.TransferResult)
    requires db.Valid() && db.users.Keys == {1, 2} && {fromId, toId} == {1, 2}
    requires db.users[1].name == "person_a" && db.users[2].name == "person_b"
    modifies db`users, db`log, db`nextTxId
    ensures db.Valid()
    ensures db.users.Keys == {1, 2}
    ensures db.users[1].name == "person_a" && db.users[2].name == "person_b"
    ensures r.success ==> r.transaction.Some?
    ensures r.success <==> 0 < amount <= old(db.users)[fromId].balance && old(db.users)[toId].balance + amount >= 0
    ensures r.success ==>
      && db.users[fromId].balance == old(db.users)[fromId].balance - amount
      && db.users[toId].balance == old(db.users)[toId].balance + amount
    ensures !r.success ==> db.users == old(db.users) && db.log == old(db.log)
    ensures db.nextTxId == old(db.nextTxId) + (if r.success then 1 else 0)
    ensures r.success ==> r.message == BalanceService.Transferred(amount, DisplayName(old(db.users)[fromId]),
                                                                  DisplayName(old(db.users)[toId]))
    ensures r.success ==> db.log == old(db.log) + [BalanceService.AuditRow(old(db.nextTxId), fromId, toId, amount,
                                                                           db.users, None, None, "now")]
    ensures !r.success ==> r.message == BalanceService.Rejection(old(db.users), fromId, toId, amount).value
  {
    ghost var users := db.users;
    ghost var u, v := users[fromId], users[toId];
    assert u.id == fromId && v.id == toId;
    assert UserService.FirstNamed(users, u.name, u);
    assert UserService.FirstNamed(users, v.name, v);
    r := BalanceService.TransferByName(db, db.users[fromId].name, db.users[toId].name, amount, None, None, "now");
    assert r.success <==> BalanceService.Rejection(users, fromId, toId, amount).None?;
    BalanceService.TransferAcceptedIff(users, fromId, toId, amount);
    if r.success {
      assert db.users == BalanceService.Moved(users, fromId, toId, amount);
      BalanceService.TransferKeepsBalancesNonNegative(users, fromId, toId, amount);
    }
  }

  /** $100.00 from person_a to person_b: accepted, with an audit entry,
      leaving $900.00 and $1100.00. */
  method TransferSucceeds() returns (r: BalanceService.TransferResult, a: Cents, b: Cents)
    ensures r.success && r.transaction.Some?
    ensures a == 90000 && b == 110000
  {
    var db := NewLedger();
    r := Pay(db, 1, 2, 10000);
    a, b := db.users[1].balance, db.users[2].balance;
  }

  /** $2000.00 from person_a: refused for insufficient funds, naming the
      sender's $1000.00, and the balance stays $1000.00. */
  method TransferInsufficientFunds() returns (r: BalanceService.TransferResult, a: Cents)
    ensures !r.success
    ensures r.message == BalanceService.InsufficientFunds("Person A", 100000)
    ensures a == 100000
  {
    var db := NewLedger();
    r := Pay(db, 1, 2, 200000);
    a := db.users[1].balance;
  }

  /** A negative amount is refused as not positive. */
  method TransferNegativeAmount() returns (r: BalanceService.TransferResult)
    ensures !r.success && r.message == BalanceService.AmountNotPositive
  {
    var db := NewLedger();
    r := Pay(db, 1, 2, -5000);
  }

  /** A transfer from person_a to person_a is refused. */
  method TransferSameUser() returns (r: BalanceService.TransferResult)
    ensures !r.success && r.message == BalanceService.SelfTransfer
  {
    var db := NewLedger();
    assert UserService.FirstNamed(db.users, "person_a", db.users[1]);
    r := BalanceService.TransferByName(db, "person_a", "person_a", 5000, None, None, "now");
  }

  /** A transfer to a name nobody has reports the receiver as not found. */
  method TransferNonexistentUser() returns (r: BalanceService.TransferResult)
    ensures !r.success && r.message == BalanceService.ReceiverNotFound
  {
    var db := NewLedger();
    assert db.users[1].name == "person_a";
    r := BalanceService.TransferByName(db, "person_a", "person_z", 5000, None, None, "now");
  }

  /** $100.00 and $200.00 from person_a, then $50.00 back: $750.00 and $1250.00. */
  method MultipleTransfers() returns (a: Cents, b: Cents)
    ensures a == 75000 && b == 125000
  {
    var db := NewLedger();
    var r1 := Pay(db, 1, 2, 10000);
    var r2 := Pay(db, 1, 2, 20000);
    var r3 := Pay(db, 2, 1, 5000);
    a, b := db.users[1].balance, db.users[2].balance;
  }

  /** After a transfer, the administrative reset to $500.00 puts both
      accounts at $500.00 and empties the history. */
  method ResetAfterTransfer() returns (a: Cents, b: Cents, h: BalanceService.History)
    ensures a == 50000 && b == 50000
    ensures h == BalanceService.NoTransactions
  {
    var db := NewLedger();
    var r := Pay(db, 1, 2, 10000);
    BalanceService.ResetAllBalances(db, 50000);
    a, b := db.users[1].balance, db.users[2].balance;
    h := BalanceService.GetTransactionHistory(db, 10);
  }

  /** The balance report of the new ledger: two users, $2000.00 in total,
      every account at $1000.00. */
  method BalancesOfNewLedger() returns (r: BalanceService.BalanceReport)
    ensures r.Balances? && r.count == 2 && r.total == 200000
    ensures multiset(r.rows) == multiset{PersonA(100000), PersonB(100000)}
    ensures |r.rows| == 2 && {DisplayName(r.rows[0]), DisplayName(r.rows[1])} == {"Person A", "Person B"}
    ensures |r.lines| == 2
    ensures forall i | 0 <= i < 2 :: r.lines[i] == BalanceService.BalanceLine(i + 1, r.rows[i])
    ensures forall i | 0 <= i < 2 :: r.rows[i].balance == 100000 && Fixed2(r.rows[i].balance) == "1000.00"
  {
    var db := NewLedger();
    NewLedgerHolds(db.users);
    r := BalanceService.GetAllBalances(db);
    PairOrder(r.rows, PersonA(100000), PersonB(100000));
    ThousandDollars();
  }

  /** The new ledger's records and total. */
  lemma NewLedgerHolds(users: map<int, User>)
    requires users == map[1 := PersonA(100000), 2 := PersonB(100000)]
    ensures users != map[]
    ensures TotalBalance(users) == 200000
    ensures Records(users) == multiset{PersonA(100000), PersonB(100000)}
  {
    assert 1 in users;
    TotalBalanceRemove(users, 1);
    TotalBalanceRemove(users - {1}, 2);
    RecordsRemove(users, 1);
    RecordsRemove(users - {1}, 2);
    assert users - {1} - {2} == map[];
  }

  /** A listing of two distinct records holds each once, in one order or the other. */
  lemma PairOrder(rows: seq<User>, a: User, b: User)
    requires multiset(rows) == multiset{a, b} && a != b
    ensures |rows| == 2 && {rows[0], rows[1]} == {a, b}
  {
    assert |rows| == |multiset(rows)| == 2;
    assert rows == [rows[0], rows[1]];
    assert rows[0] in multiset(rows) && rows[1] in multiset(rows);
  }

  lemma ThousandDollars()
    ensures Fixed2(100000) == "1000.00"
  {
    assert NatToString(1000) == "1000";
  }

  /** $100.00 from person_a, then $50.00 back: the history lists both,
      newest first. */
  method HistoryAfterTwoTransfers() returns (h: BalanceService.History)
    ensures h.Recent? && |h.entries| == 2
    ensures h.entries[0].amount == 5000 && h.entries[1].amount == 10000
  {
    var db := NewLedger();
    var r1 := Pay(db, 1, 2, 10000);
    var r2 := Pay(db, 2, 1, 5000);
    TransactionService.NewestFirstReverses(db.log, db.users);
    h := BalanceService.GetTransactionHistory(db, 10);
  }
}
