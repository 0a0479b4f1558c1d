/** The waitlist page's own sign-up form (app/waitlist/page.tsx): the e-mail
    is inserted into `waitlist`; a duplicate (`23505`) gets its own message,
    and every other refusal is rethrown and ends in the same generic
    message as an exception. The insert is a parameter. */
module WaitlistPage {
  import opened Text

  /** What the insert does: succeeds, is refused with an error carrying a
      (possibly missing) code, or throws. */
  datatype InsertOutcome = Inserted | Refused(code: Option<string>) | Threw

  datatype Status = Idle | Success | Failure

  const DuplicateMessage := "This email is already on the waitlist."
  const GenericMessage := "An error occurred. Please try again."
  const JoinedMessage := "Successfully joined the waitlist!"

  /** The outcome of one insert as the user sees it: a status and a
      message. */
  datatype Feedback = Feedback(status: Status, message: string)

  /** The status and message an insert outcome leads to: success only for an
      insert that went through, the duplicate message only for `23505`, the
      generic message for everything else. */
  function Classify(outcome: InsertOutcome): (r: Feedback)
    ensures r.status == Success <==> outcome.Inserted?
    ensures r.status == Success ==> r.message == JoinedMessage
    ensures r.message == DuplicateMessage <==> outcome == Refused(Some("23505"))
    ensures r.status != Success && outcome != Refused(Some("23505")) ==>
      r.status == Failure && r.message == GenericMessage
  {
    match outcome
    case Inserted => Feedback(Success, JoinedMessage)
    case Refused(code) =>
      if code == Some("23505") then Feedback(Failure, DuplicateMessage)
      else Feedback(Failure, GenericMessage)
    case Threw => Feedback(Failure, GenericMessage)
  }

  /** A refusal other than a duplicate cannot be told apart from an
      exception: the rethrow sends both to the same `catch`. */
  lemma OtherRefusalIsLikeThrow(code: Option<string>)
    requires code != Some("23505")
    ensures Classify(Refused(code)) == Classify(Threw)
  {
  }

  /** Every outcome leaves a non-empty message, so the feedback line always
      shows after a submit. */
  lemma FeedbackAlwaysShown(outcome: InsertOutcome)
    ensures Classify(outcome).message != "" && Classify(outcome).status != Idle
  {
  }

  class WaitlistSignup {
    var email: string
    var loading: bool
    var status: Status
    var message: string

    constructor ()
      ensures email == "" && !loading && status == Idle && message == ""
    {
      email := "";
      loading := false;
      status := Idle;
      message := "";
    }

    /** The input is disabled after a success. */
    predicate InputDisabled()
      reads this
    {
      status == Success
    }

    /** The button is disabled while loading and after a success. */
    predicate SubmitDisabled()
      reads this
    {
      loading || status == Success
    }

    /** The button's text. */
    function ButtonLabel(): (r: string)
      reads this
      ensures loading ==> r == "Joining..."
      ensures !loading && status == Success ==> r == "At your service ✓"
      ensures !loading && status != Success ==> r == "Join Now"
    {
      if loading then "Joining..." else if status == Success then "At your service ✓" else "Join Now"
    }

    /** Typing in the input. */
    method Type(value: string)
      requires !InputDisabled()
      modifies this
      ensures email == value && loading == old(loading) && status == old(status) && message == old(message)
    {
      email := value;
    }

    /** `handleSubmit`: the e-mail is inserted; the status and message are
        those of the outcome, loading is false afterwards (the `finally`), and
        only a success empties the input. */
    method HandleSubmit(outcome: InsertOutcome) returns (insertedEmails: seq<string>)
      modifies this
      ensures insertedEmails == [old(email)] && !loading
      ensures Feedback(status, message) == Classify(outcome)
      ensures outcome.Inserted? ==> email == ""
      ensures !outcome.Inserted? ==> email == old(email)
    {
      loading := true;
      status := Idle;
      message := "";
      insertedEmails := [email];
      match outcome {
        case Inserted =>
          status := Success;
          message := JoinedMessage;
          email := "";
        case Refused(code) =>
          if code == Some("23505") {
            status := Failure;
            message := DuplicateMessage;
          } else {
            status := Failure;
            message := GenericMessage;
          }
        case Threw =>
          status := Failure;
          message := GenericMessage;
      }
      loading := false;
    }
  }

  /** After a success both the input and the button are disabled, and the
      button thanks the user. */
  method SuccessDisablesForm(form: WaitlistSignup)
    modifies form
    ensures form.InputDisabled() && form.SubmitDisabled()
    ensures form.ButtonLabel() == "At your service ✓"
  {
    var inserted := form.HandleSubmit(Inserted);
  }
}
