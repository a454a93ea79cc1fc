# Money manager ledger: a Dafny model

This project models the core of a browser money manager (aura-cash-tracker). The app keeps named
users (friends, family). Each user has a running balance and a transaction history, newest first.
The model covers:

- **The ledger store** (`useUserManager`), in `user_manager.dfy`. It holds the ordered user list and
  offers three updates: add a user, delete a user, record a transaction. It also loads the list on
  mount. The updates are pure functions over `seq<User>`, and the `Store` class replaces its `users`
  field with their results. The invariant `balance == SignedSum(transactions)` is stated as
  `Consistent`. Lemmas prove that every update preserves it. Deleting a user and recording a
  transaction also preserve distinct ids. Adding a user preserves them only when the new id is
  unused, which the clock-derived id does not guarantee.
- **The page** (`Index`), in `index_page.dfy`. It has the case-insensitive duplicate-name guard in
  front of `addUser`, the handlers that forward to the store, and the header's total balance. The
  lemmas say how each update moves the total.
- **The transaction dialog**, in `transaction_modal.dfy`. It has two text fields, a submit guard
  (positive amount, reason not blank), forwarding of the trimmed reason, and a reset on close.
- **The add-user dialog**, in `add_user_modal.dfy`. It has a name field, a submit guard (name not
  blank, user count below the cap) and a reset on close.
- **The user card**, in `user_card.dfy`. It has the sign classifier for the balance colour, the
  history toggle, and the dispatch of a confirmed dialog with the open dialog's kind.
- `text.dfy` models JavaScript's `trim` (every ECMAScript whitespace and line-terminator code point)
  and `toLowerCase` (ASCII letters only). `wrappers.dfy` holds `Option`.

Amounts and balances are exact `real`s. Transaction and user ids and the ISO date come from the
clock in the source (`Date.now()`, `new Date()`), so here they are parameters. The source does not
make ids unique. Id distinctness is therefore a hypothesis of the preservation lemmas and of
conditional `ensures` clauses, not a precondition of the store. Callbacks (`onConfirm`, `onClose`,
`onAddTransaction`) and toasts are modelled as returned values.

On these points the model follows the code as written:

- A transaction for an unknown id is a silent no-op, not a NotFound error.
- A parsed snapshot is adopted verbatim, with no validation. So a loaded list need not satisfy
  `Consistent` or `IdsDistinct`. The lemmas take those as hypotheses.
- The store accepts any name, empty or not. Trimming and the non-empty check live in the dialog.
- The kinds are `'add'`/`'deduct'` (`Add`/`Deduct` here).

## Model

| member | source | states |
|---|---|---|
| Text.TrimStart | src/components/TransactionModal.tsx:37 | the result is the suffix of the input after its leading whitespace run; it does not start with whitespace and everything dropped is whitespace |
| Text.TrimEnd | src/components/TransactionModal.tsx:37 | the result is the prefix before the trailing whitespace run; it does not end with whitespace and everything dropped is whitespace |
| Text.Trim | src/components/TransactionModal.tsx:37-38 | `trim` returns the contiguous run of the input that starts where the leading whitespace ends; everything dropped before and after it is whitespace; the run has no whitespace at either end; it is empty exactly when the input is all whitespace |
| Text.TrimFacts | src/components/AddUserModal.tsx:35-36 | the properties of `trim` follow from those of its leading and trailing halves |
| Text.SameIgnoringCase | src/pages/Index.tsx:17 | the comparison `a.toLowerCase() === b.toLowerCase()` |
| Text.TrimOfTrimmed | src/components/AddUserModal.tsx:36 | a string with no whitespace at either end is its own trim |
| Text.TrimIdempotent | src/components/AddUserModal.tsx:36 | trimming twice equals trimming once |
| Text.ToLower | src/pages/Index.tsx:17 | lower-casing keeps the length and lower-cases each character in place |
| Text.ToLowerIdempotent | src/pages/Index.tsx:17 | lower-casing twice equals lower-casing once |
| Text.SameIgnoringCaseEquivalence | src/pages/Index.tsx:17 | the case-insensitive name comparison is reflexive, symmetric and transitive |
| UserManager.Loaded | src/hooks/useUserManager.ts:21-33 | on mount a parsed snapshot is adopted as is; absent or corrupt data leaves the list as it was (empty at mount) |
| UserManager.LoadIdempotent | src/hooks/useUserManager.ts:24-33 | loading the same persisted copy twice gives the same list as loading it once |
| UserManager.AppendUser | src/hooks/useUserManager.ts:40-47 | adding a user puts exactly one user at the tail, with the given id and name, balance 0 and no transactions; the earlier users are unchanged and the length grows by one |
| UserManager.RemoveUser | src/hooks/useUserManager.ts:50-51 | a user is kept exactly when it was in the list and its id differs from `userId`; with no matching id the list is unchanged |
| UserManager.RemoveUserKeepsOrder | src/hooks/useUserManager.ts:51 | deleting distributes over concatenation, so the kept users stay in their relative order |
| UserManager.RemoveUserIdempotent | src/hooks/useUserManager.ts:51 | deleting the same id twice equals deleting it once |
| UserManager.RemoveUserIds | src/hooks/useUserManager.ts:51 | after a delete an id is present exactly when it was present before and is not the deleted id |
| UserManager.BalanceChange | src/hooks/useUserManager.ts:65 | the signed change is the amount for `Add` and its negation for `Deduct` |
| UserManager.Credit | src/hooks/useUserManager.ts:64-70 | the matched user keeps id and name, gets the record at the head of an otherwise unchanged history, and its balance moves by the signed change; a consistent user stays consistent |
| UserManager.ApplyTransaction | src/hooks/useUserManager.ts:63-73 | the length is kept; each user whose id matches gets the balance change and the record prepended; every other user is kept as it was |
| UserManager.ApplyTransactionCredits | src/hooks/useUserManager.ts:55-69 | on the matching user `Add` adds the amount and `Deduct` subtracts it; the new record, carrying the given amount, reason and kind, is first in the history; id and name are kept |
| UserManager.ApplyTransactionUnknownUser | src/hooks/useUserManager.ts:63-73 | a transaction for an id nobody has leaves the whole list unchanged |
| UserManager.ApplyTransactionKeepsIds | src/hooks/useUserManager.ts:66-67 | a transaction keeps every user's id and name at its position, so distinct ids stay distinct |
| UserManager.SignedSumPrepend | src/hooks/useUserManager.ts:65-69 | prepending a record adds its signed amount to the history's signed sum |
| UserManager.AddUserKeepsConsistent | src/hooks/useUserManager.ts:44-45 | if every balance equals its signed history sum, it still does after a user is added |
| UserManager.AddUserKeepsIdsDistinct | src/hooks/useUserManager.ts:42 | adding under an id no user has keeps ids distinct |
| UserManager.RemoveUserKeepsConsistent | src/hooks/useUserManager.ts:51 | deleting a user keeps every remaining balance equal to its signed history sum |
| UserManager.RemoveUserKeepsIdsDistinct | src/hooks/useUserManager.ts:51 | deleting a user keeps the remaining ids distinct |
| UserManager.ApplyTransactionKeepsConsistent | src/hooks/useUserManager.ts:65-69 | moving the balance and prepending the record together keep every balance equal to its signed history sum |
| UserManager.AliceScenario | src/hooks/useUserManager.ts:40-74 | add Alice, credit 500, debit 200: balance 300, the debit first, balance consistent; deleting her empties the list; a later transaction for her is a no-op |
| UserManager.Store.constructor | src/hooks/useUserManager.ts:21 | the store starts with an empty list |
| UserManager.Store.Load | src/hooks/useUserManager.ts:24-33 | the mount effect replaces the list with a parsed snapshot and otherwise keeps it |
| UserManager.Store.AddUser | src/hooks/useUserManager.ts:40-48 | the new list is the old one with the new user appended; consistency is kept, and so are distinct ids when the new id is unused |
| UserManager.Store.DeleteUser | src/hooks/useUserManager.ts:50-52 | the new list is the old one with the id filtered out; consistency and distinct ids are kept |
| UserManager.Store.AddTransaction | src/hooks/useUserManager.ts:54-74 | the new list is the old one with the transaction applied to the matching user; consistency and distinct ids are kept |
| IndexPage.NameTaken | src/pages/Index.tsx:17 | the guard holds exactly when some user's lower-cased name equals the lower-cased candidate |
| IndexPage.NamesDistinctTail | src/pages/Index.tsx:17 | in a list with distinct names, the tail has distinct names and none equals the head's, ignoring case |
| IndexPage.NameTakenIgnoresCase | src/pages/Index.tsx:17 | the duplicate guard treats a name and its lower-cased form alike |
| IndexPage.AddUserKeepsNamesDistinct | src/pages/Index.tsx:15-26 | a name the guard lets through keeps all names distinct ignoring case once appended |
| IndexPage.RemoveUserNames | src/hooks/useUserManager.ts:51 | deleting never brings in a name the list did not have |
| IndexPage.NamesDistinctCons | src/pages/Index.tsx:17 | a user whose name the guard admits, put in front of a name-distinct list, keeps it name-distinct |
| IndexPage.RemoveUserKeepsNamesDistinct | src/pages/Index.tsx:33-34 | deleting a user keeps the remaining names distinct ignoring case |
| IndexPage.ApplyTransactionKeepsNamesDistinct | src/pages/Index.tsx:41-42 | a transaction keeps the names distinct ignoring case |
| IndexPage.TotalBalance | src/pages/Index.tsx:50 | the left fold of the balances starting from 0, so 0 on the empty list |
| IndexPage.TotalBalanceCons | src/pages/Index.tsx:50 | the left-to-right sum of balances equals the first balance plus the sum of the rest |
| IndexPage.AddUserKeepsTotal | src/pages/Index.tsx:50 | adding a user leaves the total balance unchanged |
| IndexPage.RemoveUserTotal | src/pages/Index.tsx:50 | with distinct ids, deleting a user takes exactly that user's balance out of the total |
| IndexPage.ApplyTransactionTotal | src/pages/Index.tsx:50 | with distinct ids, a transaction on an existing user moves the total by its signed amount |
| IndexPage.HandleAddUser | src/pages/Index.tsx:15-31 | a name equal to an existing name ignoring case is refused with a toast and the list is unchanged; otherwise the name is added unchanged, exactly once; names stay distinct |
| IndexPage.HandleDeleteUser | src/pages/Index.tsx:33-39 | forwards exactly `userId` to the delete and raises the deletion toast |
| IndexPage.HandleTransaction | src/pages/Index.tsx:41-48 | forwards id, amount, reason and kind unchanged to the store and raises the completion toast |
| TransactionModal.Submittable | src/components/TransactionModal.tsx:37 | the guard holds exactly when the parsed amount is a number above 0 and the reason has a non-whitespace character |
| TransactionModal.TransactionDialog.IsValid | src/components/TransactionModal.tsx:49 | `isValid` is the submit guard applied to the current fields |
| TransactionModal.SubmittedValuesWellFormed | src/components/TransactionModal.tsx:37-38 | an accepted submission hands on a positive amount and a non-empty reason with no whitespace at either end, taken from a reason with a non-blank character |
| TransactionModal.TransactionDialog.constructor | src/components/TransactionModal.tsx:30-31 | both fields start empty |
| TransactionModal.TransactionDialog.HandleClose | src/components/TransactionModal.tsx:43-47 | closing clears both fields and always calls `onClose` |
| TransactionModal.TransactionDialog.HandleSubmit | src/components/TransactionModal.tsx:33-49 | `onConfirm` is called exactly when `isValid` held; it gets the parsed amount and the trimmed reason, and then both fields are cleared and the dialog closes; a rejected submit calls nothing and keeps both fields |
| AddUserModal.NameValid | src/components/AddUserModal.tsx:46 | `isValid` holds exactly when the name has a non-whitespace character |
| AddUserModal.CanAddUser | src/components/AddUserModal.tsx:47 | `canAddUser` is `currentUserCount < maxUsers` |
| AddUserModal.Accepts | src/components/AddUserModal.tsx:35 | the submit guard is `isValid` and `canAddUser` together |
| AddUserModal.PropLess | src/pages/Index.tsx:134-138 | a comparison with a missing prop is false; with both props present it is `canAddUser` |
| AddUserModal.DialogBodyAsWired | src/components/AddUserModal.tsx:65 | with a prop missing only the limit notice renders; with both present the body is the intended one |
| AddUserModal.DialogBody | src/components/AddUserModal.tsx:65-111 | the name form is rendered exactly when `canAddUser` holds |
| AddUserModal.FormShownSubmitIffValid | src/components/AddUserModal.tsx:35-47 | whenever the form is shown, a submission is accepted exactly when `isValid` holds |
| AddUserModal.UnwiredCapHidesForm | src/pages/Index.tsx:134-138 | with the count props missing, as the page renders the dialog, only the limit notice is shown and no name is accepted |
| AddUserModal.AddUserDialog.constructor | src/components/AddUserModal.tsx:30 | the name field starts empty |
| AddUserModal.AddUserDialog.HandleClose | src/components/AddUserModal.tsx:41-44 | closing clears the name and always calls `onClose` |
| AddUserModal.AddUserDialog.HandleSubmit | src/components/AddUserModal.tsx:32-39 | `onConfirm` is called exactly when the trimmed name is non-empty and the count is below the cap; it gets the trimmed name, and then the field is cleared and the dialog closes; a rejected submit keeps the name |
| UserCard.GetBalanceClass | src/components/UserCard.tsx:20-24 | positive balances get `balance-positive`, negative ones `balance-negative`, zero `balance-zero`; exactly one applies |
| UserCard.UserCardState.constructor | src/components/UserCard.tsx:17-18 | history hidden, no dialog open |
| UserCard.UserCardState.ToggleHistory | src/components/UserCard.tsx:51 | the History button flips `showHistory` and nothing else |
| UserCard.UserCardState.OpenModal | src/components/UserCard.tsx:73-81 | the Add Money and Deduct Money buttons open the dialog of that kind |
| UserCard.UserCardState.CloseModal | src/components/UserCard.tsx:99 | the dialog's close resets `modalOpen` to null |
| UserCard.UserCardState.HandleTransaction | src/components/UserCard.tsx:26-31 | with a dialog open, forwards amount and reason with that dialog's kind and closes it; with none open, forwards nothing |
| UserCard.ToggleHistoryTwice | src/components/UserCard.tsx:51 | pressing History twice restores the original `showHistory` |

## Left out

- Saving to `localStorage` after every change, and the JSON encoding. These are browser calls. Load is
  modelled over an abstract `Missing | Corrupt | Snapshot(users)` input. An empty stored string counts
  as `Missing`, because the source skips falsy text.
- The `console.error` log on a parse failure is not modelled. It is a side effect with no bearing on
  the list, which stays as it was.
- UserManager.Loaded: JSON text that parses to something other than a user list (such as `null`) is
  adopted by the source as is. The model folds that case into `Corrupt` or `Snapshot`.
- `Date.now()` and `new Date().toISOString()`. These are clock reads, so ids and dates are
  parameters. Nothing makes them unique; two updates in the same millisecond share an id.
- `parseFloat` is a parameter of the transaction dialog's members. Its result is NaN or an exact
  real. Infinity and the float rounding of JavaScript numbers are not modelled, and neither is the
  float arithmetic of balances and the total (exact reals here).
- Text.ToLower: lower-cases ASCII letters only. Unicode case mapping is not modelled.
- React's effect ordering and re-render timing. The mount load is a method the caller invokes.
- Rendering: JSX, CSS, icons, toasts as displayed, the `isOpen`/`type` props passed to the
  transaction dialog, the `onChange` setters of the text fields, and `toLocaleString` formatting.
- `src/components/TransactionHistory.tsx` is not part of this model. It is rendering plus relative
  time formatting.

## Findings

| source | as written | input that shows it | evidently intended | confidence | as-written member | corrected member |
|---|---|---|---|---|---|---|
| src/pages/Index.tsx:134-138 | the add-user dialog is rendered without `currentUserCount` and `maxUsers`, so `canAddUser` is `undefined < undefined`, which is false | any name, with any number of existing users | pass the user count and a cap, so the form shows while the count is below the cap | not executed; follows from JavaScript's comparison of `undefined` | AddUserModal.UnwiredCapHidesForm | AddUserModal.FormShownSubmitIffValid |
