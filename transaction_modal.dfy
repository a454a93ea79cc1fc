/**
 * The dialog that records a transaction: two text fields, `amount` and `reason`, a submit guard
 * and a close handler that clears both. `parseFloat` is a parameter of the members that use it;
 * it yields either not-a-number or an exact real.
 */
module TransactionModal {
  import opened Wrappers
  import opened Text

  /** The result of `parseFloat`. */
  datatype Number = NaN | Num(value: real)

  /** What `onConfirm` receives. */
  datatype Confirmation = Confirmation(amount: real, reason: string)

  /** `amountNum > 0 && reason.trim()`: a positive number (NaN compares false) and a reason that is not all whitespace. */
  predicate Submittable(amountNum: Number, reason: string)
    ensures Submittable(amountNum, reason) <==>
      amountNum.Num? && amountNum.value > 0.0 && exists i :: 0 <= i < |reason| && !IsWhitespace(reason[i])
  {
    amountNum.Num? && amountNum.value > 0.0 && |Trim(reason)| > 0
  }

  /** What an accepted submission hands on: the amount is positive and the reason is non-empty with no whitespace at either end. */
  lemma SubmittedValuesWellFormed(amountNum: Number, reason: string)
    requires Submittable(amountNum, reason)
    ensures amountNum.value > 0.0
    ensures var r := Trim(reason); r != [] && !IsWhitespace(r[0]) && !IsWhitespace(r[|r| - 1])
    ensures exists i :: 0 <= i < |reason| && !IsWhitespace(reason[i])
  {
  }

  class TransactionDialog {
    var amount: string
    var reason: string

    /** Both fields start as `''`. */
    constructor ()
      ensures amount == "" && reason == ""
    {
      amount, reason := "", "";
    }

    /** `isValid`: the submit button is enabled exactly when this holds. */
    predicate IsValid(parseFloat: string -> Number)
      reads this
    {
      Submittable(parseFloat(amount), reason)
    }

    /** `handleClose`: clears both fields, then calls `onClose` (reported as `closed`). */
    method HandleClose() returns (closed: bool)
      modifies this
      ensures amount == "" && reason == ""
      ensures closed
    {
      amount := "";
      reason := "";
      closed := true;
    }

    /**
     * `handleSubmit`: when the guard holds, calls `onConfirm` with the parsed amount and the trimmed
     * reason and then closes; otherwise calls nothing and changes nothing. The guard is `IsValid`, so
     * the submit button is disabled exactly when a submission would be rejected.
     */
    method HandleSubmit(parseFloat: string -> Number) returns (confirmed: Option<Confirmation>, closed: bool)
      modifies this
      ensures confirmed.Some? <==> old(IsValid(parseFloat))
      ensures closed <==> confirmed.Some?
      ensures confirmed.Some? ==>
        && confirmed.value == Confirmation(parseFloat(old(amount)).value, Trim(old(reason)))
        && amount == "" && reason == ""
      ensures confirmed.None? ==> amount == old(amount) && reason == old(reason)
    {
      var amountNum := parseFloat(amount);
      if amountNum.Num? && amountNum.value > 0.0 && |Trim(reason)| > 0 {
        confirmed := Some(Confirmation(amountNum.value, Trim(reason)));
        closed := HandleClose();
      } else {
        confirmed, closed := None, false;
      }
    }
  }
}
