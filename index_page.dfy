/**
 * The page that owns the store: the case-insensitive duplicate-name guard in front of `addUser`,
 * the handlers that forward deletions and transactions to the store, and the total balance shown
 * in the header. Each handler's toast is returned as a value.
 */
module IndexPage {
  import opened Text
  import opened UserManager

  /** The toast a handler raises. */
  datatype Toast =
    | UserAlreadyExists
    | UserAdded(name: string)
    | UserDeleted(name: string)
    | TransactionCompleted(amount: real, kind: Kind)

  /** `users.some(user => user.name.toLowerCase() === name.toLowerCase())`. */
  predicate NameTaken(users: seq<User>, name: string)
    ensures NameTaken(users, name) <==> exists u :: u in users && ToLower(u.name) == ToLower(name)
  {
    exists i :: 0 <= i < |users| && SameIgnoringCase(users[i].name, name)
  }

  /** No two users share a name once both are lower-cased. */
  ghost predicate NamesDistinct(users: seq<User>) {
    forall i, j :: 0 <= i < j < |users| ==> !SameIgnoringCase(users[i].name, users[j].name)
  }

  /** `users.reduce((sum, user) => sum + user.balance, 0)`, accumulated from the left. */
  function TotalBalance(users: seq<User>): real {
    if users == [] then 0.0 else TotalBalance(users[..|users| - 1]) + users[|users| - 1].balance
  }

  // The duplicate-name guard

  /** The guard compares lower-cased names, so a name and its lower-cased form are taken alike. */
  lemma NameTakenIgnoresCase(users: seq<User>, name: string)
    ensures NameTaken(users, name) <==> NameTaken(users, ToLower(name))
  {
    ToLowerIdempotent(name);
  }

  /** A name the guard lets through keeps the names distinct when it is appended. */
  lemma AddUserKeepsNamesDistinct(users: seq<User>, id: string, name: string)
    requires NamesDistinct(users) && !NameTaken(users, name)
    ensures NamesDistinct(AppendUser(users, id, name))
  {
    var r := AppendUser(users, id, name);
    forall i, j | 0 <= i < j < |r| ensures !SameIgnoringCase(r[i].name, r[j].name) {
      assert r[i] == users[i];
      if j < |users| {
        assert r[j] == users[j];
      } else {
        assert r[j].name == name;
        SameIgnoringCaseEquivalence(users[i].name, name, name);
      }
    }
  }

  /** Deleting never introduces a name the list did not have. */
  lemma RemoveUserNames(users: seq<User>, userId: string, name: string)
    ensures NameTaken(RemoveUser(users, userId), name) ==> NameTaken(users, name)
  {
    var r := RemoveUser(users, userId);
    if NameTaken(r, name) {
      var i :| 0 <= i < |r| && SameIgnoringCase(r[i].name, name);
      assert r[i] in r;
      var j :| 0 <= j < |users| && users[j] == r[i];
    }
  }

  /** The tail of a list with distinct names has distinct names, none of them the head's. */
  lemma NamesDistinctTail(users: seq<User>)
    requires users != [] && NamesDistinct(users)
    ensures NamesDistinct(users[1..]) && !NameTaken(users[1..], users[0].name)
  {
    var tail := users[1..];
    forall i, j | 0 <= i < j < |tail| ensures !SameIgnoringCase(tail[i].name, tail[j].name) {
      assert tail[i] == users[i + 1] && tail[j] == users[j + 1];
    }
    forall m | 0 <= m < |tail| ensures !SameIgnoringCase(tail[m].name, users[0].name) {
      assert tail[m] == users[m + 1];
    }
  }

  /** Putting a user whose name is not taken in front of a name-distinct list keeps it name-distinct. */
  lemma NamesDistinctCons(u: User, rest: seq<User>)
    requires NamesDistinct(rest) && !NameTaken(rest, u.name)
    ensures NamesDistinct([u] + rest)
  {
    var r := [u] + rest;
    forall i, j | 0 <= i < j < |r| ensures !SameIgnoringCase(r[i].name, r[j].name) {
      assert r[j] == rest[j - 1];
      if i == 0 {
        assert !SameIgnoringCase(rest[j - 1].name, u.name);
      } else {
        assert r[i] == rest[i - 1];
      }
    }
  }

  /** Deleting a user keeps the remaining names distinct. */
  lemma {:induction false} RemoveUserKeepsNamesDistinct(users: seq<User>, userId: string)
    requires NamesDistinct(users)
    ensures NamesDistinct(RemoveUser(users, userId))
  {
    if users != [] {
      var u, tail := users[0], users[1..];
      NamesDistinctTail(users);
      RemoveUserKeepsNamesDistinct(tail, userId);
      var rest := RemoveUser(tail, userId);
      if u.id != userId {
        RemoveUserNames(tail, userId, u.name);
        NamesDistinctCons(u, rest);
      }
    }
  }

  /** A transaction keeps every name, so it keeps the names distinct. */
  lemma ApplyTransactionKeepsNamesDistinct(users: seq<User>, userId: string, tx: Transaction)
    requires NamesDistinct(users)
    ensures NamesDistinct(ApplyTransaction(users, userId, tx))
  {
    ApplyTransactionKeepsIds(users, userId, tx);
  }

  // The total balance

  /** Summing from the left equals taking the first balance plus the sum of the rest. */
  lemma {:induction false} TotalBalanceCons(u: User, rest: seq<User>)
    ensures TotalBalance([u] + rest) == u.balance + TotalBalance(rest)
  {
    if rest != [] {
      var init, v := rest[..|rest| - 1], rest[|rest| - 1];
      assert ([u] + rest)[..|rest|] == [u] + init;
      TotalBalanceCons(u, init);
    }
  }

  /** A new user's zero balance leaves the total unchanged. */
  lemma AddUserKeepsTotal(users: seq<User>, id: string, name: string)
    ensures TotalBalance(AppendUser(users, id, name)) == TotalBalance(users)
  {
    assert AppendUser(users, id, name)[..|users|] == users;
  }

  /** Deleting the one user with id `userId` takes exactly that user's balance out of the total. */
  lemma {:induction false} RemoveUserTotal(users: seq<User>, userId: string, k: nat)
    requires IdsDistinct(users) && k < |users| && users[k].id == userId
    ensures TotalBalance(RemoveUser(users, userId)) == TotalBalance(users) - users[k].balance
  {
    var u, tail := users[0], users[1..];
    assert users == [u] + tail;
    IdsDistinctTail(users);
    TotalBalanceCons(u, tail);
    if k == 0 {
      assert RemoveUser(users, userId) == tail;
    } else {
      RemoveUserTotal(tail, userId, k - 1);
      assert RemoveUser(users, userId) == [u] + RemoveUser(tail, userId);
      TotalBalanceCons(u, RemoveUser(tail, userId));
    }
  }

  /** A transaction on the one user with id `userId` moves the total by its signed amount. */
  lemma {:induction false} ApplyTransactionTotal(users: seq<User>, userId: string, tx: Transaction, k: nat)
    requires IdsDistinct(users) && k < |users| && users[k].id == userId
    ensures TotalBalance(ApplyTransaction(users, userId, tx)) == TotalBalance(users) + BalanceChange(tx.kind, tx.amount)
  {
    var u, tail := users[0], users[1..];
    assert users == [u] + tail;
    IdsDistinctTail(users);
    TotalBalanceCons(u, tail);
    var r := ApplyTransaction(users, userId, tx);
    var rtail := ApplyTransaction(tail, userId, tx);
    assert r == [r[0]] + rtail;
    TotalBalanceCons(r[0], rtail);
    if k == 0 {
      ApplyTransactionUnknownUser(tail, userId, tx);
    } else {
      ApplyTransactionTotal(tail, userId, tx, k - 1);
    }
  }

  // The handlers

  /** `handleAddUser`: refuse a name taken ignoring case; otherwise add it unchanged, exactly once. */
  method HandleAddUser(store: Store, name: string, id: string) returns (toast: Toast)
    modifies store
    ensures NameTaken(old(store.users), name) ==> toast == UserAlreadyExists && store.users == old(store.users)
    ensures !NameTaken(old(store.users), name) ==>
      toast == UserAdded(name) && store.users == AppendUser(old(store.users), id, name)
    ensures old(NamesDistinct(store.users)) ==> NamesDistinct(store.users)
  {
    if NameTaken(store.users, name) {
      toast := UserAlreadyExists;
      return;
    }
    if NamesDistinct(store.users) {
      AddUserKeepsNamesDistinct(store.users, id, name);
    }
    store.AddUser(name, id);
    toast := UserAdded(name);
  }

  /** `handleDeleteUser`: forwards exactly `userId` to the store. */
  method HandleDeleteUser(store: Store, userId: string, userName: string) returns (toast: Toast)
    modifies store
    ensures store.users == RemoveUser(old(store.users), userId)
    ensures toast == UserDeleted(userName)
    ensures old(NamesDistinct(store.users)) ==> NamesDistinct(store.users)
  {
    if NamesDistinct(store.users) {
      RemoveUserKeepsNamesDistinct(store.users, userId);
    }
    store.DeleteUser(userId);
    toast := UserDeleted(userName);
  }

  /** `handleTransaction`: forwards id, amount, reason and kind unchanged to the store. */
  method HandleTransaction(store: Store, userId: string, amount: real, reason: string, kind: Kind, txId: string, date: string)
    returns (toast: Toast)
    modifies store
    ensures store.users == ApplyTransaction(old(store.users), userId, Transaction(txId, amount, reason, date, kind))
    ensures toast == TransactionCompleted(amount, kind)
    ensures old(NamesDistinct(store.users)) ==> NamesDistinct(store.users)
  {
    if NamesDistinct(store.users) {
      ApplyTransactionKeepsNamesDistinct(store.users, userId, Transaction(txId, amount, reason, date, kind));
    }
    store.AddTransaction(userId, amount, reason, kind, txId, date);
    toast := TransactionCompleted(amount, kind);
  }
}
