/**
 * The card that shows one user: the colour class of its balance, the history toggle, and the
 * dispatch of a confirmed dialog to `onAddTransaction` with the kind of the dialog that is open.
 */
module UserCard {
  import opened Wrappers
  import opened UserManager

  /** `getBalanceClass`: exactly one of the three classes applies to any balance. */
  function GetBalanceClass(balance: real): (c: string)
    ensures c == "balance-positive" <==> balance > 0.0
    ensures c == "balance-negative" <==> balance < 0.0
    ensures c == "balance-zero" <==> balance == 0.0
  {
    if balance > 0.0 then "balance-positive"
    else if balance < 0.0 then "balance-negative"
    else "balance-zero"
  }

  /** What `onAddTransaction` receives. */
  datatype Request = Request(amount: real, reason: string, kind: Kind)

  class UserCardState {
    var showHistory: bool
    /** `null` while no dialog is open, otherwise the kind of the open dialog. */
    var modalOpen: Option<Kind>

    constructor ()
      ensures !showHistory && modalOpen == None
    {
      showHistory, modalOpen := false, None;
    }

    /** The History button: flips `showHistory`, so two presses restore it. */
    method ToggleHistory()
      modifies this
      ensures showHistory == !old(showHistory) && modalOpen == old(modalOpen)
    {
      showHistory := !showHistory;
    }

    /** The Add Money and Deduct Money buttons. */
    method OpenModal(kind: Kind)
      modifies this
      ensures modalOpen == Some(kind) && showHistory == old(showHistory)
    {
      modalOpen := Some(kind);
    }

    /** The dialog's `onClose`. */
    method CloseModal()
      modifies this
      ensures modalOpen == None && showHistory == old(showHistory)
    {
      modalOpen := None;
    }

    /**
     * `handleTransaction`: with a dialog open, forwards amount and reason with that dialog's kind and
     * closes the dialog; with none open, does nothing.
     */
    method HandleTransaction(amount: real, reason: string) returns (forwarded: Option<Request>)
      modifies this
      ensures old(modalOpen).Some? ==> forwarded == Some(Request(amount, reason, old(modalOpen).value))
      ensures old(modalOpen).None? ==> forwarded == None
      ensures modalOpen == None && showHistory == old(showHistory)
    {
      if modalOpen.Some? {
        forwarded := Some(Request(amount, reason, modalOpen.value));
        modalOpen := None;
      } else {
        forwarded := None;
      }
    }
  }

  /** Pressing History twice restores the original `showHistory`. */
  method ToggleHistoryTwice(card: UserCardState)
    modifies card
    ensures card.showHistory == old(card.showHistory) && card.modalOpen == old(card.modalOpen)
  {
    card.ToggleHistory();
    card.ToggleHistory();
  }
}
