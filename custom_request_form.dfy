/** The custom-presentation request form (components/custom-request-form.tsx):
    nothing is sent before the terms are agreed to; the request is sent
    with its text fields trimmed, the optional ones as null when blank; a
    success resets the form and locks it. The insert is a parameter. */
module CustomRequestForm {
  import opened Text

  datatype Status = Idle | Success | Failure

  /** The inputs of the form. */
  datatype Fields = Fields(
    name: string,
    email: string,
    topic: string,
    details: string,
    language: string,
    agreedToTerms: bool)

  const DefaultFields := Fields("", "", "", "", "en", false)

  const TermsMessage := "Please confirm that you understand the terms."
  const SubmittedMessage := "Request submitted successfully! We'll review and reach out within 3 business days."
  const GenericMessage := "An error occurred. Please try again."

  /** The row inserted into `custom_requests`. */
  datatype RequestRecord = RequestRecord(
    name: Option<string>,
    email: string,
    topic: string,
    details: Option<string>,
    language: string,
    agreedToTerms: bool)

  /** The row a submit of `f` sends: the name and details trimmed or null
      when blank, the e-mail and topic trimmed, the language and the terms
      flag as they are. */
  function RecordOf(f: Fields): (r: RequestRecord)
    ensures r.name.None? <==> IsBlank(f.name)
    ensures r.name.Some? ==> r.name.value == Trim(f.name)
    ensures r.email == Trim(f.email) && r.topic == Trim(f.topic)
    ensures r.details.None? <==> IsBlank(f.details)
    ensures r.details.Some? ==> r.details.value == Trim(f.details)
    ensures r.language == f.language && r.agreedToTerms == f.agreedToTerms
  {
    RequestRecord(TrimOrNull(f.name), Trim(f.email), Trim(f.topic), TrimOrNull(f.details),
                  f.language, f.agreedToTerms)
  }

  /** The inputs that would show a record again: null as empty. */
  function FieldsOf(r: RequestRecord): Fields
  {
    Fields(Shown(r.name), r.email, r.topic, Shown(r.details), r.language, r.agreedToTerms)
  }

  /** The optional text an input shows for `o`. */
  function Shown(o: Option<string>): string
  {
    if o.Some? then o.value else ""
  }

  lemma TrimOrNullOfTrimmed(s: string)
    ensures TrimOrNull(Shown(TrimOrNull(s))) == TrimOrNull(s)
  {
    if TrimOrNull(s).Some? {
      TrimIdempotent(s);
      TrimEmptyIffBlank(Trim(s));
    }
  }

  /** The record is already normal: typing it back into the form and
      submitting sends the same row. */
  lemma RecordIsNormal(f: Fields)
    ensures RecordOf(FieldsOf(RecordOf(f))) == RecordOf(f)
  {
    var r := RecordOf(f);
    TrimOrNullOfTrimmed(f.name);
    TrimOrNullOfTrimmed(f.details);
    TrimIdempotent(f.email);
    TrimIdempotent(f.topic);
    assert FieldsOf(r) == Fields(Shown(r.name), r.email, r.topic, Shown(r.details), r.language, r.agreedToTerms);
  }

  /** The status and message a submit leaves: the terms message when they
      were not agreed to, otherwise success or the generic error. */
  function SubmitFeedback(f: Fields, insertFailed: bool): (r: (Status, string))
    ensures !f.agreedToTerms ==> r == (Failure, TermsMessage)
    ensures f.agreedToTerms ==> (r.0 == Success <==> !insertFailed)
    ensures f.agreedToTerms && insertFailed ==> r.1 == GenericMessage
    ensures f.agreedToTerms && !insertFailed ==> r.1 == SubmittedMessage
  {
    if !f.agreedToTerms then (Failure, TermsMessage)
    else if insertFailed then (Failure, GenericMessage)
    else (Success, SubmittedMessage)
  }

  /** The rows a submit of `f` sends. */
  function SentRecords(f: Fields): (r: seq<RequestRecord>)
    ensures |r| <= 1
    ensures r != [] <==> f.agreedToTerms
  {
    if f.agreedToTerms then [RecordOf(f)] else []
  }

  /** Every row that reaches the database records that the terms were
      agreed to. */
  lemma SentRecordsAgreed(f: Fields)
    ensures forall r :: r in SentRecords(f) ==> r.agreedToTerms
  {
  }

  class CustomRequest {
    var fields: Fields
    var loading: bool
    var status: Status
    var message: string

    constructor ()
      ensures fields == DefaultFields && !loading && status == Idle && message == ""
    {
      fields := DefaultFields;
      loading := false;
      status := Idle;
      message := "";
    }

    /** The inputs and the button are disabled while loading and after a
        success. */
    predicate Locked()
      reads this
    {
      loading || status == Success
    }

    /** Typing in any input or ticking the box. */
    method Edit(f: Fields)
      requires !Locked()
      modifies this
      ensures fields == f && loading == old(loading) && status == old(status) && message == old(message)
    {
      fields := f;
    }

    /** `handleSubmit`: without the terms, their message and nothing sent;
        otherwise the request row, then success with every field back to
        its default, or the generic error with the fields kept. Loading is
        false on every path. */
    method HandleSubmit(insertFailed: bool) returns (sent: seq<RequestRecord>)
      modifies this
      ensures sent == SentRecords(old(fields)) && !loading
      ensures (status, message) == SubmitFeedback(old(fields), insertFailed)
      ensures status == Success ==> fields == DefaultFields
      ensures status != Success ==> fields == old(fields)
    {
      loading := true;
      status := Idle;
      message := "";
      sent := [];
      if !fields.agreedToTerms {
        status := Failure;
        message := TermsMessage;
        loading := false;
        return;
      }
      sent := [RecordOf(fields)];
      if insertFailed {
        status := Failure;
        message := GenericMessage;
      } else {
        status := Success;
        message := SubmittedMessage;
        fields := DefaultFields;
      }
      loading := false;
    }
  }

  /** A success locks the form with the terms box cleared: a second request
      cannot be sent from it without a reload. */
  method SuccessLocks(form: CustomRequest)
    requires form.fields.agreedToTerms
    modifies form
    ensures form.Locked() && !form.fields.agreedToTerms
  {
    var sent := form.HandleSubmit(false);
  }
}
