/** The client registration wizard (src/components/RegistrationForm.tsx): step 1 takes the
    personal details, step 2 the payment reference and screenshot, step 3 shows the
    reference of the submitted registration. */
module Form {
  import opened Types
  import opened Text
  import opened Patterns
  import Register
  import Ticket

  /** `type Step = 1 | 2 | 3`. */
  type Step = s: int | 1 <= s <= 3 witness 1

  /** The form state. Text fields are plain strings, empty until typed. */
  datatype FormData = FormData(name: string, email: string, phone: string, rollCollege: string,
                               utr: string, screenshot: Option<Register.File>)

  const EmptyForm: FormData := FormData("", "", "", "", "", None)

  /** The four refusals of `validateStep1`, in the order they are tried. */
  datatype Step1Error = BlankName | BadEmail | BadPhone | BlankRollCollege

  /** The toast shown for a refusal of step 1. */
  function Step1Message(e: Step1Error): (message: string)
    ensures message != ""
  {
    match e
    case BlankName => "Please enter your name"
    case BadEmail => "Please enter a valid email"
    case BadPhone => "Please enter a valid 10-digit phone number"
    case BlankRollCollege => "Please enter your roll number / college"
  }

  /** Each refusal of step 1 has its own toast. */
  lemma Step1MessagesDistinct(e1: Step1Error, e2: Step1Error)
    requires Step1Message(e1) == Step1Message(e2)
    ensures e1 == e2
  {
  }

  /** The toast shown when step 2's payment reference is blank. */
  const Step3Message: string := "Please enter UTR / Transaction ID"

  /** The toast shown once the server created the registration. */
  const SubmittedMessage: string := "Registration submitted successfully!"

  /** The blank-UTR toast is not the success toast. */
  lemma SubmitToastsDiffer()
    ensures SubmittedMessage != Step3Message
  {
    assert |SubmittedMessage| != |Step3Message|;
  }

  /** The toast of a refused request: the server's `error` text. Every refusal of the route
      carries a non-empty text, so the handler's 'Registration failed' fallback never
      applies to it. */
  function RefusalToast(e: Register.SubmitError): (message: string)
    ensures message == Register.ErrorMessage(e)
    ensures message != Step3Message && message != SubmittedMessage
  {
    Register.ErrorMessage(e)
  }

  /** `validateStep1`: the first failing check, or none. The blank tests trim; the two
      patterns are applied to the untrimmed text. */
  function ValidateStep1(d: FormData): (e: Option<Step1Error>)
    ensures e == Some(BlankName) <==> Trim(d.name) == []
  {
    if Trim(d.name) == [] then Some(BlankName)
    else if Trim(d.email) == [] || !IsEmail(d.email) then Some(BadEmail)
    else if Trim(d.phone) == [] || !IsTenDigits(d.phone) then Some(BadPhone)
    else if Trim(d.rollCollege) == [] then Some(BlankRollCollege)
    else None
  }

  /** Step 1 passes iff the name and college are not blank and the e-mail and phone match
      their patterns; the blank tests on e-mail and phone never decide anything. */
  lemma Step1PassesIff(d: FormData)
    ensures ValidateStep1(d).None? <==>
      Trim(d.name) != [] && IsEmail(d.email) && IsTenDigits(d.phone) && Trim(d.rollCollege) != []
  {
    if IsEmail(d.email) { EmailIsNotBlank(d.email); }
    if IsTenDigits(d.phone) { PhoneIsNotBlank(d.phone); }
  }

  /** Only the first failure is reported: each refusal means every earlier check passed
      and its own check failed. */
  lemma Step1FirstFailure(d: FormData)
    ensures ValidateStep1(d) == Some(BadEmail) <==> Trim(d.name) != [] && !IsEmail(d.email)
    ensures ValidateStep1(d) == Some(BadPhone) <==>
      Trim(d.name) != [] && IsEmail(d.email) && !IsTenDigits(d.phone)
    ensures ValidateStep1(d) == Some(BlankRollCollege) <==>
      Trim(d.name) != [] && IsEmail(d.email) && IsTenDigits(d.phone) && Trim(d.rollCollege) == []
  {
    if IsEmail(d.email) { EmailIsNotBlank(d.email); }
    if IsTenDigits(d.phone) { PhoneIsNotBlank(d.phone); }
  }

  /** `validateStep3`: the payment reference holds some character other than white space. */
  function ValidateStep3(d: FormData): (ok: bool)
    ensures ok <==> exists i :: 0 <= i < |d.utr| && !IsSpace(d.utr[i])
  {
    TrimEmptyIff(d.utr);
    Trim(d.utr) != []
  }

  /** The multipart body `handleSubmit` posts: every text field, and the screenshot when
      one was chosen. */
  function Payload(d: FormData): (s: Register.Submission)
    ensures s.name == Some(d.name) && s.email == Some(d.email) && s.phone == Some(d.phone)
    ensures s.rollCollege == Some(d.rollCollege) && s.utr == Some(d.utr)
    ensures s.screenshot == d.screenshot
  {
    Register.Submission(Some(d.name), Some(d.email), Some(d.phone), Some(d.rollCollege),
      Some(d.utr), d.screenshot)
  }

  /** A form that passed both client checks also passes the server's three format checks,
      so the server can refuse it only as a duplicate or for a failed insert. */
  lemma ValidatedPayloadPassesFormatChecks(d: FormData)
    requires ValidateStep1(d).None? && ValidateStep3(d)
    ensures Register.FieldsValid(Payload(d))
  {
    Step1PassesIff(d);
    TrimNonEmpty(d.name);
    TrimNonEmpty(d.rollCollege);
    TrimNonEmpty(d.utr);
  }

  /** The server's checks are weaker than the client's: a name of spaces is refused by the
      form but would be accepted by the route, which does not trim. */
  lemma BlankNameOnlyRefusedByClient()
    ensures var d := FormData(" ", "a@b.co", "0123456789", "IIT", "UTR1", None);
      ValidateStep1(d) == Some(BlankName) && Register.FieldsValid(Payload(d))
  {
    var d := FormData(" ", "a@b.co", "0123456789", "IIT", "UTR1", None);
    var domain := d.email[2..];
    assert domain == "b.co" && domain[1] == '.';
    assert HasInnerDot(domain);
    assert d.email[..1] == "a" && d.email[1] == '@';
    assert IsEmail(d.email);
    assert IsSpace(' ');
  }

  /** The form with `field` set to `value`, for the five text inputs; any other input name
      changes none of the modelled fields. */
  function WithField(d: FormData, field: string, value: string): (e: FormData)
    ensures e.screenshot == d.screenshot
    ensures e.name == (if field == "name" then value else d.name)
    ensures e.email == (if field == "email" then value else d.email)
    ensures e.phone == (if field == "phone" then value else d.phone)
    ensures e.rollCollege == (if field == "roll_college" then value else d.rollCollege)
    ensures e.utr == (if field == "utr" then value else d.utr)
  {
    if field == "name" then d.(name := value)
    else if field == "email" then d.(email := value)
    else if field == "phone" then d.(phone := value)
    else if field == "roll_college" then d.(rollCollege := value)
    else if field == "utr" then d.(utr := value)
    else d
  }

  /** Editing one field never disturbs another: editing two distinct fields in either order
      gives the same form. */
  lemma WithFieldCommutes(d: FormData, f1: string, v1: string, f2: string, v2: string)
    requires f1 != f2
    ensures WithField(WithField(d, f1, v1), f2, v2) == WithField(WithField(d, f2, v2), f1, v1)
  {
  }

  /** The step-3 reference: '#' and the short id. */
  function ReferenceLabel(registrationId: string): (shown: string)
    ensures |shown| >= 1 && shown[0] == '#'
    ensures shown[1..] == Ticket.ShortId(registrationId)
  {
    "#" + Ticket.ShortId(registrationId)
  }

  /** The wizard's React state: `step`, `formData` and `registrationId`. */
  class RegistrationWizard {
    var step: Step
    var data: FormData
    var registrationId: Option<string>

    /** Step 3 is reached only with an id from the server. */
    ghost predicate Valid()
      reads this
    {
      step == 3 ==> registrationId.Some?
    }

    constructor ()
      ensures Valid()
      ensures step == 1 && data == EmptyForm && registrationId == None
    {
      step := 1;
      data := EmptyForm;
      registrationId := None;
    }

    /** `handleInputChange` for the input named `field`. */
    method HandleInputChange(field: string, value: string)
      requires Valid()
      modifies this
      ensures Valid()
      ensures data == WithField(old(data), field, value)
      ensures step == old(step) && registrationId == old(registrationId)
    {
      data := WithField(data, field, value);
    }

    /** `handleFileChange`: the first chosen file becomes the screenshot; an empty choice
        keeps the old one. */
    method HandleFileChange(files: seq<Register.File>)
      requires Valid()
      modifies this
      ensures Valid()
      ensures data == if files == [] then old(data) else old(data).(screenshot := Some(files[0]))
      ensures step == old(step) && registrationId == old(registrationId)
    {
      if files != [] {
        data := data.(screenshot := Some(files[0]));
      }
    }

    /** `handleNext`: from step 1 to step 2 when step 1 validates. Validation, and so its
        toast, happens only at step 1; `error` is the refusal and `toast` its text. */
    method HandleNext() returns (error: Option<Step1Error>, toast: Option<string>)
      requires Valid()
      modifies this
      ensures Valid()
      ensures error == if old(step) == 1 then ValidateStep1(data) else None
      ensures toast.Some? <==> error.Some?
      ensures error.Some? ==> toast == Some(Step1Message(error.value))
      ensures step == if old(step) == 1 && ValidateStep1(data).None? then 2 else old(step)
      ensures data == old(data) && registrationId == old(registrationId)
    {
      error, toast := None, None;
      if step == 1 {
        error := ValidateStep1(data);
        if error.None? {
          step := 2;
        } else {
          toast := Some(Step1Message(error.value));
        }
      }
    }

    /** `handleBack`: one step back, never below step 1. */
    method HandleBack()
      requires Valid()
      modifies this
      ensures Valid()
      ensures step == if old(step) > 1 then old(step) - 1 else 1
      ensures data == old(data) && registrationId == old(registrationId)
    {
      if step > 1 {
        step := step - 1;
      }
    }

    /** `handleSubmit`. `response` is the server's answer to `Payload(data)`, or `None`
        when the request or its JSON failed, with `thrownMessage` the message of what was
        thrown. Returns whether validation let the request go out, and the toast shown. */
    method HandleSubmit(response: Option<Register.SubmitResult>, thrownMessage: string)
      returns (sent: bool, toast: string)
      requires Valid()
      modifies this
      ensures Valid()
      ensures sent == ValidateStep3(data)
      ensures !sent ==> toast == Step3Message
      ensures sent && response.Some? && response.value.Created? ==> toast == SubmittedMessage
      ensures sent && response.Some? && response.value.Failed? ==>
        toast == Register.ErrorMessage(response.value.error)
      ensures sent && response.None? ==> toast == thrownMessage
      ensures response.Some? ==> (toast == Step3Message <==> !sent)
      ensures data == old(data)
      ensures sent && response.Some? && response.value.Created? ==>
        step == 3 && registrationId == Some(response.value.registrationId)
      ensures !(sent && response.Some? && response.value.Created?) ==>
        step == old(step) && registrationId == old(registrationId)
    {
      if !ValidateStep3(data) {
        return false, Step3Message;
      }
      if response.None? {
        return true, thrownMessage;
      }
      match response.value
      case Created(id) =>
        registrationId := Some(id);
        step := 3;
        SubmitToastsDiffer();
        return true, SubmittedMessage;
      case Failed(e) =>
        return true, RefusalToast(e);
    }

    /** The reference shown at step 3, when there is an id to show. */
    function Reference(): (shown: Option<string>)
      reads this
      ensures shown.Some? <==> step == 3 && registrationId.Some? && registrationId.value != ""
      ensures Valid() && step == 3 ==> (shown.Some? <==> registrationId.value != "")
      ensures shown.Some? ==> shown.value == ReferenceLabel(registrationId.value)
    {
      if step == 3 && registrationId.Some? && registrationId.value != ""
      then Some(ReferenceLabel(registrationId.value))
      else None
    }
  }
}
