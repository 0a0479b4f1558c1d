/** The password update form (components/update-password-form.tsx): the two
    entries must match, then be at least six characters long; only then is
    the new password sent, and a success schedules the redirect to the
    login page. The auth service and the timer are effects and
    parameters. */
module UpdatePasswordForm {
  import opened Text

  const MinLength: nat := 6

  const MismatchMessage := "Passwords do not match"
  const TooShortMessage := "Password must be at least 6 characters"
  const DefaultFailureMessage := "Failed to update password"
  const UnexpectedMessage := "An unexpected error occurred"

  /** What `updateUser` does: succeeds, returns an error with a (possibly
      missing) message, or throws. */
  datatype UpdateOutcome = Updated | Refused(message: Option<string>) | Threw

  /** What a submit does outside the form, in order. */
  datatype Effect = UpdatePassword(password: string) | RedirectToLoginLater

  /** The validation message for a pair of entries, or none: a mismatch is
      reported before the length, whatever the length. */
  function ValidationError(password: string, confirmPassword: string): (r: Option<string>)
    ensures password != confirmPassword ==> r == Some(MismatchMessage)
    ensures password == confirmPassword && |password| < MinLength ==> r == Some(TooShortMessage)
    ensures r.None? <==> password == confirmPassword && |password| >= MinLength
  {
    if password != confirmPassword then Some(MismatchMessage)
    else if |password| < MinLength then Some(TooShortMessage)
    else None
  }

  /** The message a failed update leaves: the service's own non-empty
      message, the default text otherwise, and a fixed text for an
      exception. */
  function FailureMessage(outcome: UpdateOutcome): (r: string)
    requires !outcome.Updated?
    ensures r != ""
    ensures outcome.Threw? ==> r == UnexpectedMessage
    ensures outcome.Refused? && outcome.message.Some? && outcome.message.value != "" ==>
      r == outcome.message.value
    ensures outcome.Refused? && (outcome.message.None? || outcome.message.value == "") ==>
      r == DefaultFailureMessage
  {
    match outcome
    case Refused(message) =>
      if message.Some? && message.value != "" then message.value else DefaultFailureMessage
    case Threw => UnexpectedMessage
  }

  /** The effects of a submit: none for invalid entries; otherwise the
      update, followed by the delayed redirect only on success. */
  function SubmitEffects(password: string, confirmPassword: string, outcome: UpdateOutcome): seq<Effect>
  {
    if ValidationError(password, confirmPassword).Some? then []
    else [UpdatePassword(password)] + (if outcome.Updated? then [RedirectToLoginLater] else [])
  }

  /** A password reaches the service only after both checks pass, so it is
      always the confirmed entry and at least six characters long; the
      redirect is scheduled only after a successful update. */
  lemma SentPasswordsAreValid(password: string, confirmPassword: string, outcome: UpdateOutcome)
    ensures forall e :: e in SubmitEffects(password, confirmPassword, outcome) && e.UpdatePassword? ==>
      e.password == confirmPassword && |e.password| >= MinLength
    ensures RedirectToLoginLater in SubmitEffects(password, confirmPassword, outcome) <==>
      ValidationError(password, confirmPassword).None? && outcome.Updated?
  {
  }

  /** Six characters is the shortest length accepted. */
  lemma LengthBoundary(password: string)
    requires |password| == MinLength - 1 || |password| == MinLength
    ensures ValidationError(password, password).None? <==> |password| == MinLength
  {
  }

  class UpdatePassword {
    var password: string
    var confirmPassword: string
    var loading: bool
    /** The error text; empty for none. */
    var error: string
    var success: bool

    constructor ()
      ensures password == "" && confirmPassword == "" && !loading && error == "" && !success
    {
      password := "";
      confirmPassword := "";
      loading := false;
      error := "";
      success := false;
    }

    /** Typing in the two inputs, which are disabled while loading and gone
        once the update succeeded. */
    method Type(newPassword: string, newConfirm: string)
      requires !loading && !success
      modifies this
      ensures password == newPassword && confirmPassword == newConfirm
      ensures loading == old(loading) && error == old(error) && success == old(success)
    {
      password := newPassword;
      confirmPassword := newConfirm;
    }

    /** `handleSubmit`: the error and the success flag cleared; invalid
        entries leave their message without touching loading; otherwise the
        update, then success or the failure message, with loading false
        either way. The entries themselves are never changed. */
    method HandleSubmit(outcome: UpdateOutcome) returns (effects: seq<Effect>)
      modifies this
      ensures password == old(password) && confirmPassword == old(confirmPassword)
      ensures effects == SubmitEffects(password, confirmPassword, outcome)
      ensures ValidationError(password, confirmPassword).Some? ==>
        error == ValidationError(password, confirmPassword).value && !success && loading == old(loading)
      ensures ValidationError(password, confirmPassword).None? ==> !loading
      ensures ValidationError(password, confirmPassword).None? && outcome.Updated? ==> success && error == ""
      ensures ValidationError(password, confirmPassword).None? && !outcome.Updated? ==>
        !success && error == FailureMessage(outcome)
    {
      error := "";
      success := false;
      effects := [];
      if password != confirmPassword {
        error := MismatchMessage;
        return;
      }
      if |password| < MinLength {
        error := TooShortMessage;
        return;
      }
      loading := true;
      effects := [UpdatePassword(password)];
      match outcome {
        case Refused(message) =>
          error := if message.Some? && message.value != "" then message.value else DefaultFailureMessage;
          loading := false;
        case Updated =>
          success := true;
          loading := false;
          effects := effects + [RedirectToLoginLater];
        case Threw =>
          error := UnexpectedMessage;
          loading := false;
      }
    }
  }
}
