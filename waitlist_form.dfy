/** The landing page's waitlist form (components/waitlist-form.tsx): a
    non-empty e-mail is inserted into `waitlist`, and the database's refusal
    is turned into a message by a fixed order of checks. The insert is a
    parameter. */
module WaitlistForm {
  import opened Text

  /** The error object of a refused insert: a code and a message, either
      possibly missing. */
  datatype DbError = DbError(code: Option<string>, message: Option<string>)

  /** What the insert does: succeeds, is refused, or throws. */
  datatype InsertOutcome = Inserted | Refused(error: DbError) | Threw

  datatype Status = Idle | Success | Failure

  const DuplicateMessage := "This email is already on the waitlist!"
  const NotConfiguredMessage := "Database not configured. Please contact support."
  const FallbackMessage := "Failed to join waitlist. Please check your connection and try again."
  const JoinedMessage := "You've been added to the waitlist!"
  const UnexpectedMessage := "An unexpected error occurred. Please try again later."

  /** JavaScript truthiness of a nullable string. */
  predicate Present(s: Option<string>)
  {
    s.Some? && s.value != ""
  }

  /** One of the two codes with a message of their own. */
  predicate KnownCode(e: DbError)
  {
    e.code == Some("23505") || e.code == Some("PGRST116")
  }

  /** The error carries a non-blank message. */
  predicate HasMessage(e: DbError)
  {
    e.message.Some? && !IsBlank(e.message.value)
  }

  /** The message for a refused insert, by the first check that applies: a
      duplicate e-mail, a missing table, a non-blank message of its own,
      any code, and otherwise a fallback. */
  function RefusalMessage(e: DbError): (r: string)
    ensures e.code == Some("23505") ==> r == DuplicateMessage
    ensures e.code == Some("PGRST116") ==> r == NotConfiguredMessage
    ensures !KnownCode(e) && HasMessage(e) ==> r == e.message.value
    ensures !KnownCode(e) && !HasMessage(e) && Present(e.code) ==>
      r == "Error (" + e.code.value + "). Please try again."
    ensures !Present(e.code) && !HasMessage(e) ==>
      r == FallbackMessage
  {
    var text := if e.message.Some? then e.message.value else "";
    TrimEmptyIffBlank(text);
    if e.code == Some("23505") then DuplicateMessage
    else if e.code == Some("PGRST116") then NotConfiguredMessage
    else if e.message.Some? && e.message.value != "" && Trim(e.message.value) != "" then e.message.value
    else if Present(e.code) then "Error (" + e.code.value + "). Please try again."
    else FallbackMessage
  }

  /** A refused insert always leaves a visible message: it is never empty. */
  lemma RefusalMessageNonEmpty(e: DbError)
    ensures RefusalMessage(e) != ""
  {
    if HasMessage(e) {
      TrimEmptyIffBlank(e.message.value);
      assert e.message.value != "";
    }
  }

  /** The duplicate check comes first: a `23505` refusal reads as a
      duplicate whatever message the database sent. */
  lemma DuplicateWins(message: Option<string>)
    ensures RefusalMessage(DbError(Some("23505"), message)) == DuplicateMessage
  {
  }

  class WaitlistSignup {
    var email: string
    var loading: bool
    var status: Status
    var message: string

    constructor ()
      ensures email == "" && !loading && status == Idle && message == ""
    {
      email := "";
      loading := false;
      status := Idle;
      message := "";
    }

    /** Typing in the input, which is disabled after a success. */
    method Type(value: string)
      requires status != Success
      modifies this
      ensures email == value && loading == old(loading) && status == old(status) && message == old(message)
    {
      email := value;
    }

    /** The submit button is disabled while loading and after a success. */
    predicate SubmitDisabled()
      reads this
    {
      loading || status == Success
    }

    /** `handleSubmit`: nothing for an empty e-mail; otherwise the insert of
        that e-mail, loading false once it returns or throws, and the status
        and message of the outcome; a success also empties the input. */
    method HandleSubmit(outcome: InsertOutcome) returns (insertedEmails: seq<string>)
      modifies this
      ensures old(email) == "" ==>
        insertedEmails == [] && email == old(email) && loading == old(loading) &&
        status == old(status) && message == old(message)
      ensures old(email) != "" ==> insertedEmails == [old(email)] && !loading
      ensures old(email) != "" && outcome.Inserted? ==>
        status == Success && message == JoinedMessage && email == ""
      ensures old(email) != "" && outcome.Refused? ==>
        status == Failure && message == RefusalMessage(outcome.error) && email == old(email)
      ensures old(email) != "" && outcome.Threw? ==>
        status == Failure && message == UnexpectedMessage &&
        email == old(email)
    {
      insertedEmails := [];
      if email == "" {
        return;
      }
      loading := true;
      status := Idle;
      message := "";
      insertedEmails := [email];
      match outcome {
        case Threw =>
          loading := false;
          status := Failure;
          message := UnexpectedMessage;
        case Refused(error) =>
          loading := false;
          status := Failure;
          message := RefusalMessage(error);
        case Inserted =>
          loading := false;
          status := Success;
          message := JoinedMessage;
          email := "";
      }
    }

    /** The feedback line: shown when there is a message and the status is
        not idle. */
    function Feedback(): (r: Option<string>)
      reads this
      ensures r.Some? <==> message != "" && status != Idle
      ensures r.Some? ==> r.value == message
    {
      if message != "" && status != Idle then Some(message) else None
    }
  }

  /** After a success the form is locked: the button is disabled, and even a
      forced submit does nothing, the input being empty. */
  method SuccessLocksForm(form: WaitlistSignup, outcome: InsertOutcome, later: InsertOutcome)
    returns (second: seq<string>)
    requires form.email != ""
    modifies form
    ensures outcome.Inserted? ==> form.SubmitDisabled() && second == [] && form.status == Success
  {
    var first := form.HandleSubmit(outcome);
    second := form.HandleSubmit(later);
  }
}
