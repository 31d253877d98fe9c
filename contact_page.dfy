/** The contact page's form: editing a field, the blank-field check, and
    the submit sequence from sending through success or failure. */
module ContactPage {
  import opened Text
  import opened ApiClient

  datatype FormField = NameInput | EmailInput | SubjectInput | MessageInput

  datatype FormData = FormData(name: string, email: string, subject: string, message: string)

  const EmptyForm := FormData("", "", "", "")

  function Get(d: FormData, f: FormField): string {
    match f
    case NameInput => d.name
    case EmailInput => d.email
    case SubjectInput => d.subject
    case MessageInput => d.message
  }

  /** `{ ...prev, [name]: value }`: the named field takes the value and the
      other three keep theirs. */
  function Set(d: FormData, f: FormField, v: string): (r: FormData)
    ensures Get(r, f) == v
    ensures forall g :: g != f ==> Get(r, g) == Get(d, g)
  {
    match f
    case NameInput => d.(name := v)
    case EmailInput => d.(email := v)
    case SubjectInput => d.(subject := v)
    case MessageInput => d.(message := v)
  }

  /** Setting a field to the value it has changes nothing, and a second
      edit of the same field replaces the first. */
  lemma {:induction false} SetLaws(d: FormData, f: FormField, v: string, w: string)
    ensures Set(d, f, Get(d, f)) == d
    ensures Set(Set(d, f, v), f, w) == Set(d, f, w)
  {
  }

  /** Some field is empty once trimmed. */
  predicate AnyBlank(d: FormData) {
    exists f :: Trim(Get(d, f)) == ""
  }

  /** The check the handler writes out field by field. */
  lemma {:induction false} AnyBlankIff(d: FormData)
    ensures AnyBlank(d) <==> Trim(d.name) == "" || Trim(d.email) == "" || Trim(d.subject) == "" || Trim(d.message) == ""
  {
    if Trim(d.name) == "" { assert Trim(Get(d, NameInput)) == ""; }
    if Trim(d.email) == "" { assert Trim(Get(d, EmailInput)) == ""; }
    if Trim(d.subject) == "" { assert Trim(Get(d, SubjectInput)) == ""; }
    if Trim(d.message) == "" { assert Trim(Get(d, MessageInput)) == ""; }
  }

  function Blank(d: FormData): (b: bool)
    ensures b <==> AnyBlank(d)
  {
    AnyBlankIff(d);
    Trim(d.name) == "" || Trim(d.email) == "" || Trim(d.subject) == "" || Trim(d.message) == ""
  }

  datatype SubmitStatus = Idle | Success | Error

  const FillInMessage := "Please fill in all fields"
  const SendFailedMessage := "Failed to send message. Please try again."

  /** `error instanceof Error ? error.message : 'Failed to send...'`. */
  function FailureText(e: Failure): (m: string)
    ensures !e.NotAnError? ==> m == e.message
    ensures e.NotAnError? ==> m == SendFailedMessage
  {
    if e.NotAnError? then SendFailedMessage else e.message
  }

  /** The form component's state. */
  class ContactFormState {
    var formData: FormData
    var isSubmitting: bool
    var submitStatus: SubmitStatus
    var errorMessage: string

    constructor ()
      ensures formData == EmptyForm && !isSubmitting && submitStatus == Idle && errorMessage == ""
    {
      formData, isSubmitting, submitStatus, errorMessage := EmptyForm, false, Idle, "";
    }

    /** `handleInputChange`: one field edited. */
    method HandleInputChange(f: FormField, v: string)
      modifies this
      ensures formData == Set(old(formData), f, v)
      ensures isSubmitting == old(isSubmitting) && submitStatus == old(submitStatus) && errorMessage == old(errorMessage)
    {
      formData := Set(formData, f, v);
    }

    /** The state at the start of a send. */
    method BeginSubmit()
      modifies this
      ensures isSubmitting && submitStatus == Idle
      ensures formData == old(formData) && errorMessage == old(errorMessage)
    {
      isSubmitting := true;
      submitStatus := Idle;
    }

    /** The end of a send: success clears the form, failure shows the
        error's text; either way the form is no longer submitting. */
    method FinishSubmit<T>(outcome: Attempt<T>)
      modifies this
      ensures !isSubmitting
      ensures outcome.Ok? ==> submitStatus == Success && formData == EmptyForm && errorMessage == old(errorMessage)
      ensures outcome.Threw? ==>
        submitStatus == Error && errorMessage == FailureText(outcome.error) && formData == old(formData)
    {
      if outcome.Ok? {
        submitStatus := Success;
        formData := EmptyForm;
      } else {
        submitStatus := Error;
        errorMessage := FailureText(outcome.error);
      }
      isSubmitting := false;
    }

    /** `handleSubmit`: a blank field stops it with the fill-in message and
        nothing sent; otherwise the form's data is sent and `outcome` is what
        the service call returned. */
    method HandleSubmit<T>(outcome: Attempt<T>) returns (sent: Option<FormData>)
      modifies this
      ensures AnyBlank(old(formData)) ==>
        && sent.None? && submitStatus == Error && errorMessage == FillInMessage
        && formData == old(formData) && isSubmitting == old(isSubmitting)
      ensures !AnyBlank(old(formData)) ==>
        && sent == Some(old(formData)) && !isSubmitting
        && (outcome.Ok? ==> submitStatus == Success && formData == EmptyForm)
        && (outcome.Threw? ==> submitStatus == Error && errorMessage == FailureText(outcome.error)
                               && formData == old(formData))
    {
      if Blank(formData) {
        submitStatus := Error;
        errorMessage := FillInMessage;
        return None;
      }
      sent := Some(formData);
      BeginSubmit();
      FinishSubmit(outcome);
    }
  }

  /** A message the server refuses as invalid reaches the form as that
      status's error text, on the first attempt. */
  lemma {:induction false} RejectedMessageShown<T>(responses: nat -> Response<T>, d: T)
    requires responses(0) == Response(false, 400, "Bad Request", Json(Some("Validation failed"), d))
    ensures Retry(Classified(responses), 0, DefaultRetries, DefaultDelay)
      == Run(Threw(ApiError(400, "Validation failed")), 1, [])
    ensures FailureText(ApiError(400, "Validation failed")) == "Validation failed"
  {
  }
}
