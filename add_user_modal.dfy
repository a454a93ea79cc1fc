/**
 * The dialog that adds a user: one text field, `name`, a submit guard that also enforces a cap on
 * the number of users, and a close handler that clears the field.
 */
module AddUserModal {
  import opened Wrappers
  import opened Text

  /** `isValid`: the trimmed name is not empty. */
  predicate NameValid(name: string)
    ensures NameValid(name) <==> exists i :: 0 <= i < |name| && !IsWhitespace(name[i])
  {
    |Trim(name)| > 0
  }

  /** `canAddUser`: the cap has not been reached. */
  predicate CanAddUser(currentUserCount: nat, maxUsers: nat) {
    currentUserCount < maxUsers
  }

  /** The guard of `handleSubmit`. */
  predicate Accepts(name: string, currentUserCount: nat, maxUsers: nat) {
    NameValid(name) && CanAddUser(currentUserCount, maxUsers)
  }

  /** The dialog body: the name form while users can be added, a "maximum reached" notice once the cap is hit. */
  datatype Body = NameForm | LimitReached

  function DialogBody(currentUserCount: nat, maxUsers: nat): (b: Body)
    ensures b == NameForm <==> CanAddUser(currentUserCount, maxUsers)
  {
    if currentUserCount < maxUsers then NameForm else LimitReached
  }

  /** Whenever the form is on screen, its submit button is enabled exactly when a submission would be accepted. */
  lemma FormShownSubmitIffValid(name: string, currentUserCount: nat, maxUsers: nat)
    requires DialogBody(currentUserCount, maxUsers) == NameForm
    ensures Accepts(name, currentUserCount, maxUsers) <==> NameValid(name)
  {
  }

  // The cap as the page wires it: neither count prop is passed, so both read as `undefined`.

  /** JavaScript's `<` on number props that may be missing: a missing prop converts to NaN, and NaN is below nothing. */
  predicate PropLess(a: Option<nat>, b: Option<nat>)
    ensures a.None? || b.None? ==> !PropLess(a, b)
    ensures a.Some? && b.Some? ==> (PropLess(a, b) <==> CanAddUser(a.value, b.value))
  {
    a.Some? && b.Some? && a.value < b.value
  }

  /** The body as rendered from props that may be missing; with both present it is the intended `DialogBody`. */
  function DialogBodyAsWired(currentUserCount: Option<nat>, maxUsers: Option<nat>): (body: Body)
    ensures currentUserCount.None? || maxUsers.None? ==> body == LimitReached
    ensures currentUserCount.Some? && maxUsers.Some? ==> body == DialogBody(currentUserCount.value, maxUsers.value)
  {
    if PropLess(currentUserCount, maxUsers) then NameForm else LimitReached
  }

  /** With both props missing, the dialog only ever shows the limit notice and no name is accepted. */
  lemma UnwiredCapHidesForm(name: string)
    ensures DialogBodyAsWired(None, None) == LimitReached
    ensures !(NameValid(name) && PropLess(None, None))
  {
  }

  class AddUserDialog {
    var name: string

    /** The field starts as `''`. */
    constructor ()
      ensures name == ""
    {
      name := "";
    }

    /** `handleClose`: clears the field, then calls `onClose` (reported as `closed`). */
    method HandleClose() returns (closed: bool)
      modifies this
      ensures name == ""
      ensures closed
    {
      name := "";
      closed := true;
    }

    /**
     * `handleSubmit`: when the trimmed name is non-empty and the cap is not reached, calls `onConfirm`
     * with the trimmed name and then closes; otherwise calls nothing and keeps the field.
     */
    method HandleSubmit(currentUserCount: nat, maxUsers: nat) returns (confirmed: Option<string>, closed: bool)
      modifies this
      ensures confirmed.Some? <==> old(Accepts(name, currentUserCount, maxUsers))
      ensures closed <==> confirmed.Some?
      ensures confirmed.Some? ==> confirmed.value == Trim(old(name)) && name == ""
      ensures confirmed.None? ==> name == old(name)
    {
      if |Trim(name)| > 0 && currentUserCount < maxUsers {
        confirmed := Some(Trim(name));
        closed := HandleClose();
      } else {
        confirmed, closed := None, false;
      }
    }
  }
}
