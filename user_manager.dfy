/**
 * The ledger store of the money manager (the `useUserManager` hook): an ordered list of users,
 * each with a running balance and a most-recent-first list of transactions, and the three
 * updates the hook offers. Amounts are exact reals; ids and dates are supplied by the caller
 * (the hook reads them from the clock).
 */
module UserManager {

  /** The direction of a transaction: `'add'` credits the user, `'deduct'` debits them. */
  datatype Kind = Add | Deduct

  datatype Transaction = Transaction(id: string, amount: real, reason: string, date: string, kind: Kind)

  datatype User = User(id: string, name: string, balance: real, transactions: seq<Transaction>)

  /** What the persisted copy yields on mount: nothing stored, text that does not parse, or a parsed list. */
  datatype Saved = Missing | Corrupt | Snapshot(users: seq<User>)

  /** The signed amount by which a transaction moves its owner's balance. */
  function BalanceChange(kind: Kind, amount: real): (d: real)
    ensures d == amount || d == -amount
    ensures (kind == Add) == (d == amount) || amount == 0.0
  {
    if kind == Add then amount else -amount
  }

  /** The sum of the signed amounts of a transaction list. */
  ghost function SignedSum(txs: seq<Transaction>): real {
    if txs == [] then 0.0 else BalanceChange(txs[0].kind, txs[0].amount) + SignedSum(txs[1..])
  }

  /** A user's stored balance agrees with its transaction history. */
  ghost predicate Consistent(u: User) {
    u.balance == SignedSum(u.transactions)
  }

  ghost predicate AllConsistent(users: seq<User>) {
    forall i :: 0 <= i < |users| ==> Consistent(users[i])
  }

  ghost predicate IdsDistinct(users: seq<User>) {
    forall i, j :: 0 <= i < j < |users| ==> users[i].id != users[j].id
  }

  predicate HasUser(users: seq<User>, id: string) {
    exists i :: 0 <= i < |users| && users[i].id == id
  }

  /** The initial list on mount: a parsed snapshot is adopted as it is; anything else leaves the list as it was. */
  function Loaded(current: seq<User>, saved: Saved): (r: seq<User>)
    ensures saved.Snapshot? ==> r == saved.users
    ensures !saved.Snapshot? ==> r == current
  {
    match saved
    case Snapshot(users) => users
    case _ => current
  }

  /** Loading the same persisted copy twice gives the same list as loading it once. */
  lemma LoadIdempotent(current: seq<User>, saved: Saved)
    ensures Loaded(Loaded(current, saved), saved) == Loaded(current, saved)
  {
  }

  /** `[...prev, newUser]`: the list with a fresh user at its tail. */
  function AppendUser(users: seq<User>, id: string, name: string): (r: seq<User>)
    ensures |r| == |users| + 1 && r[..|users|] == users
    ensures r[|users|] == User(id, name, 0.0, [])
  {
    users + [User(id, name, 0.0, [])]
  }

  /** `prev.filter(user => user.id !== userId)`. */
  function RemoveUser(users: seq<User>, userId: string): (r: seq<User>)
    ensures |r| <= |users|
    ensures forall u :: u in r <==> u in users && u.id != userId
    ensures !HasUser(users, userId) ==> r == users
  {
    if users == [] then []
    else
      assert !HasUser(users, userId) ==> !HasUser(users[1..], userId);
      (if users[0].id == userId then [] else [users[0]]) + RemoveUser(users[1..], userId)
  }

  /** The matching user after a transaction: balance moved by the signed amount, the record put first. */
  function Credit(u: User, tx: Transaction): (v: User)
    ensures v.id == u.id && v.name == u.name
    ensures |v.transactions| == |u.transactions| + 1 && v.transactions[0] == tx && v.transactions[1..] == u.transactions
    ensures v.balance - u.balance == BalanceChange(tx.kind, tx.amount)
    ensures Consistent(u) ==> Consistent(v)
  {
    SignedSumPrepend(tx, u.transactions);
    u.(balance := u.balance + BalanceChange(tx.kind, tx.amount), transactions := [tx] + u.transactions)
  }

  /** `prev.map(...)`: every user with id `userId` is credited with `tx`, every other user is kept. */
  function ApplyTransaction(users: seq<User>, userId: string, tx: Transaction): (r: seq<User>)
    ensures |r| == |users|
    ensures forall i :: 0 <= i < |users| ==> r[i] == if users[i].id == userId then Credit(users[i], tx) else users[i]
  {
    if users == [] then []
    else [if users[0].id == userId then Credit(users[0], tx) else users[0]] + ApplyTransaction(users[1..], userId, tx)
  }

  // Properties of the three updates

  /** A new user starts with balance 0 and no transactions, so appending one keeps every balance consistent. */
  lemma AddUserKeepsConsistent(users: seq<User>, id: string, name: string)
    requires AllConsistent(users)
    ensures AllConsistent(AppendUser(users, id, name))
  {
    var r := AppendUser(users, id, name);
    forall i | 0 <= i < |r| ensures Consistent(r[i]) {
      if i < |users| { assert r[i] == users[i]; }
    }
  }

  /** Appending a user under an id nobody has keeps the ids distinct. */
  lemma AddUserKeepsIdsDistinct(users: seq<User>, id: string, name: string)
    requires IdsDistinct(users) && !HasUser(users, id)
    ensures IdsDistinct(AppendUser(users, id, name))
  {
    var r := AppendUser(users, id, name);
    forall i, j | 0 <= i < j < |r| ensures r[i].id != r[j].id {
      assert r[i] == users[i];
      if j < |users| { assert r[j] == users[j]; }
    }
  }

  /** Deleting keeps the relative order of the users it keeps: it distributes over concatenation. */
  lemma {:induction false} RemoveUserKeepsOrder(a: seq<User>, b: seq<User>, userId: string)
    ensures RemoveUser(a + b, userId) == RemoveUser(a, userId) + RemoveUser(b, userId)
  {
    if a == [] {
      assert a + b == b;
    } else {
      assert (a + b)[0] == a[0];
      assert (a + b)[1..] == a[1..] + b;
      RemoveUserKeepsOrder(a[1..], b, userId);
    }
  }

  /** Deleting the same id twice gives the same list as deleting it once. */
  lemma RemoveUserIdempotent(users: seq<User>, userId: string)
    ensures RemoveUser(RemoveUser(users, userId), userId) == RemoveUser(users, userId)
  {
  }

  /** Deleting a user keeps every remaining balance consistent. */
  lemma RemoveUserKeepsConsistent(users: seq<User>, userId: string)
    requires AllConsistent(users)
    ensures AllConsistent(RemoveUser(users, userId))
  {
    var r := RemoveUser(users, userId);
    forall i | 0 <= i < |r| ensures Consistent(r[i]) {
      assert r[i] in r;
      var j :| 0 <= j < |users| && users[j] == r[i];
    }
  }

  /** A list headed by `u` has distinct ids when its tail does and no tail user shares `u`'s id. */
  lemma IdsDistinctCons(u: User, rest: seq<User>)
    requires IdsDistinct(rest) && !HasUser(rest, u.id)
    ensures IdsDistinct([u] + rest)
  {
    var r := [u] + rest;
    forall i, j | 0 <= i < j < |r| ensures r[i].id != r[j].id {
      assert r[j] == rest[j - 1];
      if i > 0 { assert r[i] == rest[i - 1]; }
    }
  }

  /** Deleting never introduces an id the list did not have. */
  lemma RemoveUserIds(users: seq<User>, userId: string, id: string)
    ensures HasUser(RemoveUser(users, userId), id) <==> HasUser(users, id) && id != userId
  {
    var r := RemoveUser(users, userId);
    if HasUser(r, id) {
      var i :| 0 <= i < |r| && r[i].id == id;
      assert r[i] in r;
    }
    if HasUser(users, id) && id != userId {
      var i :| 0 <= i < |users| && users[i].id == id;
      assert users[i] in r;
    }
  }

  /** The tail of a list with distinct ids has distinct ids, none of them the head's. */
  lemma IdsDistinctTail(users: seq<User>)
    requires users != [] && IdsDistinct(users)
    ensures IdsDistinct(users[1..]) && !HasUser(users[1..], users[0].id)
  {
    var tail := users[1..];
    forall i, j | 0 <= i < j < |tail| ensures tail[i].id != tail[j].id {
      assert tail[i] == users[i + 1] && tail[j] == users[j + 1];
    }
    forall m | 0 <= m < |tail| ensures tail[m].id != users[0].id {
      assert tail[m] == users[m + 1];
    }
  }

  /** Deleting a user keeps the ids of the others distinct. */
  lemma {:induction false} RemoveUserKeepsIdsDistinct(users: seq<User>, userId: string)
    requires IdsDistinct(users)
    ensures IdsDistinct(RemoveUser(users, userId))
  {
    if users != [] {
      var tail := users[1..];
      IdsDistinctTail(users);
      RemoveUserKeepsIdsDistinct(tail, userId);
      if users[0].id != userId {
        RemoveUserIds(tail, userId, users[0].id);
        IdsDistinctCons(users[0], RemoveUser(tail, userId));
      }
    }
  }

  /** A transaction put at the head of a list adds its signed amount to the list's signed sum. */
  lemma SignedSumPrepend(tx: Transaction, txs: seq<Transaction>)
    ensures SignedSum([tx] + txs) == BalanceChange(tx.kind, tx.amount) + SignedSum(txs)
  {
    assert ([tx] + txs)[1..] == txs;
  }

  /**
   * On the user whose id matches, a transaction adds its amount for `Add` and subtracts it for `Deduct`,
   * and puts the new record, with its amount, reason and kind, first in the history.
   */
  lemma ApplyTransactionCredits(users: seq<User>, userId: string, tx: Transaction, k: nat)
    requires k < |users| && users[k].id == userId
    ensures var r := ApplyTransaction(users, userId, tx);
      && r[k].id == users[k].id && r[k].name == users[k].name
      && (tx.kind == Add ==> r[k].balance == users[k].balance + tx.amount)
      && (tx.kind == Deduct ==> r[k].balance == users[k].balance - tx.amount)
      && r[k].transactions == [tx] + users[k].transactions
      && r[k].transactions[0] == tx
  {
  }

  /** A transaction for an id nobody has leaves the whole list unchanged. */
  lemma ApplyTransactionUnknownUser(users: seq<User>, userId: string, tx: Transaction)
    requires !HasUser(users, userId)
    ensures ApplyTransaction(users, userId, tx) == users
  {
    var r := ApplyTransaction(users, userId, tx);
    assert forall i :: 0 <= i < |users| ==> r[i] == users[i];
  }

  /** A transaction keeps every user's id and name, so it keeps distinct ids distinct. */
  lemma ApplyTransactionKeepsIds(users: seq<User>, userId: string, tx: Transaction)
    ensures var r := ApplyTransaction(users, userId, tx);
      forall i :: 0 <= i < |users| ==> r[i].id == users[i].id && r[i].name == users[i].name
    ensures IdsDistinct(users) ==> IdsDistinct(ApplyTransaction(users, userId, tx))
  {
  }

  /** Moving the balance and prepending the record together keep the balance equal to the signed sum. */
  lemma ApplyTransactionKeepsConsistent(users: seq<User>, userId: string, tx: Transaction)
    requires AllConsistent(users)
    ensures AllConsistent(ApplyTransaction(users, userId, tx))
  {
    var r := ApplyTransaction(users, userId, tx);
    forall i | 0 <= i < |r| ensures Consistent(r[i]) {
      if users[i].id == userId {
        SignedSumPrepend(tx, users[i].transactions);
      }
    }
  }

  /**
   * A worked run: add Alice, credit 500 for lunch, debit 200 for coffee; her balance is 300 with the
   * coffee record first; deleting her empties the list, and a later transaction for her changes nothing.
   */
  lemma AliceScenario(aliceId: string, lunchId: string, coffeeId: string, lunchDate: string, coffeeDate: string)
    ensures var s1 := AppendUser([], aliceId, "Alice");
      var s2 := ApplyTransaction(s1, aliceId, Transaction(lunchId, 500.0, "lunch", lunchDate, Add));
      var s3 := ApplyTransaction(s2, aliceId, Transaction(coffeeId, 200.0, "coffee", coffeeDate, Deduct));
      && s1 == [User(aliceId, "Alice", 0.0, [])]
      && s2[0].balance == 500.0
      && s3[0].balance == 300.0
      && s3[0].transactions == [Transaction(coffeeId, 200.0, "coffee", coffeeDate, Deduct),
                                Transaction(lunchId, 500.0, "lunch", lunchDate, Add)]
      && AllConsistent(s3)
      && RemoveUser(s3, aliceId) == []
      && ApplyTransaction([], aliceId, Transaction(lunchId, 500.0, "lunch", lunchDate, Add)) == []
  {
    var s1 := AppendUser([], aliceId, "Alice");
    var s2 := ApplyTransaction(s1, aliceId, Transaction(lunchId, 500.0, "lunch", lunchDate, Add));
    var s3 := ApplyTransaction(s2, aliceId, Transaction(coffeeId, 200.0, "coffee", coffeeDate, Deduct));
    AddUserKeepsConsistent([], aliceId, "Alice");
    ApplyTransactionKeepsConsistent(s1, aliceId, Transaction(lunchId, 500.0, "lunch", lunchDate, Add));
    ApplyTransactionKeepsConsistent(s2, aliceId, Transaction(coffeeId, 200.0, "coffee", coffeeDate, Deduct));
    assert s3[0] in s3;
  }

  /**
   * The store as the hook holds it: the current list, replaced wholesale by every update.
   */
  class Store {
    var users: seq<User>

    /** `useState<User[]>([])`. */
    constructor ()
      ensures users == []
    {
      users := [];
    }

    /** The load-on-mount effect: adopt a parsed snapshot, otherwise keep the current list. */
    method Load(saved: Saved)
      modifies this
      ensures users == Loaded(old(users), saved)
    {
      if saved.Snapshot? {
        users := saved.users;
      }
    }

    method AddUser(name: string, id: string)
      modifies this
      ensures users == AppendUser(old(users), id, name)
      ensures old(AllConsistent(users)) ==> AllConsistent(users)
      ensures old(IdsDistinct(users)) && !old(HasUser(users, id)) ==> IdsDistinct(users)
    {
      if AllConsistent(users) { AddUserKeepsConsistent(users, id, name); }
      if IdsDistinct(users) && !HasUser(users, id) { AddUserKeepsIdsDistinct(users, id, name); }
      users := users + [User(id, name, 0.0, [])];
    }

    method DeleteUser(userId: string)
      modifies this
      ensures users == RemoveUser(old(users), userId)
      ensures old(AllConsistent(users)) ==> AllConsistent(users)
      ensures old(IdsDistinct(users)) ==> IdsDistinct(users)
    {
      if AllConsistent(users) { RemoveUserKeepsConsistent(users, userId); }
      if IdsDistinct(users) { RemoveUserKeepsIdsDistinct(users, userId); }
      users := RemoveUser(users, userId);
    }

    method AddTransaction(userId: string, amount: real, reason: string, kind: Kind, txId: string, date: string)
      modifies this
      ensures users == ApplyTransaction(old(users), userId, Transaction(txId, amount, reason, date, kind))
      ensures old(AllConsistent(users)) ==> AllConsistent(users)
      ensures old(IdsDistinct(users)) ==> IdsDistinct(users)
    {
      var tx := Transaction(txId, amount, reason, date, kind);
      if AllConsistent(users) { ApplyTransactionKeepsConsistent(users, userId, tx); }
      ApplyTransactionKeepsIds(users, userId, tx);
      users := ApplyTransaction(users, userId, tx);
    }
  }
}
