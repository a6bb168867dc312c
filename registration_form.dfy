/** The registration form of client/src/components/RegistrationForm.tsx: its plan table,
    the state changes of choosing a plan and a photo, the background e-mail check, the
    client-side validation, the guard in front of submission and the reading of the
    server's answer. The component's state is a value; each handler maps the state it sees
    to the state it sets. The clock, the date rendering of `toISOString` and date-fns
    `addMonths` are parameters. */
module RegistrationForm {
  import opened Text
  import opened UserModel
  import opened Formatters
  import UserController
  import Upload

  /** One entry of the `plans` table. */
  datatype PlanOption = PlanOption(id: Plan, name: string, price: nat, months: nat)

  const Plans: seq<PlanOption> := [
    PlanOption(OneMonth, "1 Month", 1500, 1),
    PlanOption(TwoMonth, "2 Months", 2500, 2),
    PlanOption(ThreeMonth, "3 Months", 3500, 3),
    PlanOption(SixMonth, "6 Months", 5000, 6),
    PlanOption(Yearly, "1 Year", 8000, 12)]

  /** The table offers every plan of the schema, each once... */
  lemma PlansCoverSchema()
    ensures |Plans| == 5
    ensures forall i, j :: 0 <= i < j < |Plans| ==> Plans[i].id != Plans[j].id
    ensures (set o | o in Plans :: o.id) == {OneMonth, TwoMonth, ThreeMonth, SixMonth, Yearly}
  {
    assert Plans[0] in Plans && Plans[1] in Plans && Plans[2] in Plans && Plans[3] in Plans && Plans[4] in Plans;
  }

  /** ...with the price and display name that utils/formatters.js gives it and the plan's
      duration in months. */
  lemma PlansAgreeWithFormatters()
    ensures forall o :: o in Plans ==>
      && o.price == PlanAmount(PlanId(o.id))
      && o.name == PlanDisplayName(PlanId(o.id))
      && o.months == Months(o.id)
  {
  }

  /** The chosen file of the photo input; a browser `File` always has a size. */
  datatype PhotoFile = PhotoFile(name: string, mimeType: string, size: nat)

  /** `formData`. */
  datatype FormData = FormData(
    name: string, email: string, phone: string, dob: string, photo: Option<PhotoFile>,
    plan: Plan, startDate: string, endDate: string, paymentMethod: PaymentMethod)

  /** The fields that can carry an error. */
  datatype Field = NameField | EmailField | PhoneField | DobField | PhotoField

  /** `FormErrors`: an optional message per field; a key set to `undefined` is `None`. */
  datatype FormErrors = FormErrors(
    name: Option<string>, email: Option<string>, phone: Option<string>,
    dob: Option<string>, photo: Option<string>)

  const NoErrors := FormErrors(None, None, None, None, None)

  /** The state of the component that the handlers below read and set. */
  datatype FormState = FormState(
    data: FormData, errors: FormErrors, selectedPlan: Plan, emailExists: bool)

  /** The state the component starts in at time `now`: empty fields, no photo, the
      one-month plan from today, online payment, no errors. */
  function InitialState(now: int, isoDay: int -> string, addMonths: (int, nat) -> int): FormState {
    FormState(
      FormData("", "", "", "", None, OneMonth, isoDay(now), isoDay(addMonths(now, 1)), Online),
      NoErrors, OneMonth, false)
  }

  /** `handlePlanSelect` at time `now`: the plan, today's date and the date `months` months
      later are set; nothing else in the state changes. */
  function HandlePlanSelect(state: FormState, option: PlanOption, now: int,
                            isoDay: int -> string, addMonths: (int, nat) -> int): (r: FormState)
    ensures r.selectedPlan == option.id && r.data.plan == option.id
    ensures r.data.startDate == isoDay(now) && r.data.endDate == isoDay(addMonths(now, option.months))
    ensures && r.data.name == state.data.name && r.data.email == state.data.email
            && r.data.phone == state.data.phone && r.data.dob == state.data.dob
            && r.data.photo == state.data.photo && r.data.paymentMethod == state.data.paymentMethod
    ensures r.errors == state.errors && r.emailExists == state.emailExists
  {
    state.(
      data := state.data.(plan := option.id, startDate := isoDay(now),
                          endDate := isoDay(addMonths(now, option.months))),
      selectedPlan := option.id)
  }

  /** The starting state is the one-month plan chosen at the same moment. */
  lemma InitialStateIsFirstPlan(now: int, isoDay: int -> string, addMonths: (int, nat) -> int)
    ensures HandlePlanSelect(InitialState(now, isoDay, addMonths), Plans[0], now, isoDay, addMonths) ==
      InitialState(now, isoDay, addMonths)
  {
  }

  /** Choosing a plan twice at the same moment is choosing the second one. */
  lemma LastPlanSelectionWins(state: FormState, first: PlanOption, second: PlanOption, now: int,
                              isoDay: int -> string, addMonths: (int, nat) -> int)
    ensures HandlePlanSelect(HandlePlanSelect(state, first, now, isoDay, addMonths), second, now, isoDay, addMonths) ==
      HandlePlanSelect(state, second, now, isoDay, addMonths)
  {
  }

  const PhotoTooLargeMessage := "Photo size should be less than 2MB"

  /** The photo limit of the form, in bytes. */
  const MaxPhotoSize: nat := 2 * 1024 * 1024

  /** What `handlePhotoChange` does: the new state and the toast it shows. */
  datatype PhotoChange = PhotoChange(state: FormState, toast: Option<string>)

  /** `handlePhotoChange` with the first chosen file, if any: a file over 2 MB is refused
      with a toast and leaves the state as it was; no file changes nothing. */
  function HandlePhotoChange(state: FormState, file: Option<PhotoFile>): (r: PhotoChange)
    ensures file.None? ==> r == PhotoChange(state, None)
    ensures file.Some? && file.value.size > MaxPhotoSize ==> r == PhotoChange(state, Some(PhotoTooLargeMessage))
    ensures file.Some? && file.value.size <= MaxPhotoSize ==>
      r.toast.None? && r.state.data.photo == file &&
      r.state == state.(data := r.state.data) && r.state.data == state.data.(photo := file)
  {
    match file
    case None => PhotoChange(state, None)
    case Some(f) =>
      if f.size > MaxPhotoSize then PhotoChange(state, Some(PhotoTooLargeMessage))
      else PhotoChange(state.(data := state.data.(photo := file)), None)
  }

  /** The form's limit is the upload middleware's: a photo the form takes is never refused
      by the server for its size. */
  lemma AcceptedPhotoWithinServerLimit(state: FormState, f: PhotoFile)
    requires HandlePhotoChange(state, Some(f)).toast.None?
    ensures HandlePhotoChange(state, Some(f)).state.data.photo == Some(f)
    ensures Upload.FileFilter(Upload.UploadFile(f.name, f.mimeType, Some(f.size))) != Upload.Reject(Upload.SizeMessage)
  {
    assert Upload.SizeMessage != Upload.TypeMessage by {
      assert |Upload.SizeMessage| != |Upload.TypeMessage|;
    }
  }

  /** `/^[^\s@]+@[^\s@]+\.[^\s@]+$/.test(s)`: no white space anywhere, exactly one '@',
      not first, and after it a '.' that is neither right after the '@' nor last. */
  predicate ClientEmail(s: string) {
    exists a: int, d: int :: 0 < a && a + 1 < d && d + 1 < |s| && ClientEmailAt(s, a, d)
  }

  /** The match of `ClientEmail` with the '@' at `a` and the '.' at `d`. */
  predicate ClientEmailAt(s: string, a: int, d: int)
    requires 0 < a && a + 1 < d && d + 1 < |s|
  {
    && s[a] == '@' && s[d] == '.'
    && forall k :: 0 <= k < |s| && k != a ==> !IsSpace(s[k]) && s[k] != '@'
  }

  /** An address the form accepts passes the server's looser test as well... */
  lemma ClientEmailIsLoose(s: string)
    requires ClientEmail(s)
    ensures UserController.LooseEmail(s)
  {
    var a, d :| 0 < a && a + 1 < d && d + 1 < |s| && ClientEmailAt(s, a, d);
    assert UserController.LooseEmailAt(s, a, d);
  }

  /** ...but not the other way round: the server takes "a@b@c.d", the form does not. */
  lemma LooseEmailNotClient()
    ensures UserController.LooseEmail("a@b@c.d")
    ensures !ClientEmail("a@b@c.d")
  {
    var s := "a@b@c.d";
    assert UserController.LooseEmailAt(s, 3, 5);
    forall a: int, d: int | 0 < a && a + 1 < d && d + 1 < |s|
      ensures !ClientEmailAt(s, a, d)
    {
      if a == 1 {
        assert s[3] == '@';
      } else if a == 3 {
        assert s[1] == '@';
      } else {
        assert s[a] != '@';
      }
    }
  }

  const NameRequired := "Name is required"
  const EmailRequired := "Email is required"
  const EmailInvalid := "Please enter a valid email address"
  const PhoneRequired := "Phone number is required"
  const PhoneInvalid := "Please enter a valid 10-digit phone number"
  const DobRequired := "Date of birth is required"
  const PhotoRequired := "Please upload a photo"

  /** The form passes validation: a name that is not blank, a matching e-mail address, ten
      digits of phone number, a date of birth and a photo. */
  predicate FormValid(form: FormData) {
    && !IsBlank(form.name)
    && ClientEmail(form.email)
    && UserController.TenDigits(form.phone)
    && form.dob != ""
    && form.photo.Some?
  }

  /** The error `validateForm` records for one field, if any. */
  function FieldError(form: FormData, field: Field): Option<string> {
    match field
    case NameField => if Trim(form.name) == "" then Some(NameRequired) else None
    case EmailField =>
      if Trim(form.email) == "" then Some(EmailRequired)
      else if !ClientEmail(form.email) then Some(EmailInvalid)
      else None
    case PhoneField =>
      if Trim(form.phone) == "" then Some(PhoneRequired)
      else if !UserController.TenDigits(form.phone) then Some(PhoneInvalid)
      else None
    case DobField => if form.dob == "" then Some(DobRequired) else None
    case PhotoField => if form.photo.None? then Some(PhotoRequired) else None
  }

  /** A field has an error exactly when it fails its check: the empty-field message when
      the value is blank, the format message when it is not blank but fails its pattern. */
  lemma FieldErrorMeaning(form: FormData, field: Field)
    ensures field == NameField ==>
      var r := FieldError(form, field);
      (r.Some? <==> IsBlank(form.name)) && (r.Some? ==> r.value == NameRequired)
    ensures field == EmailField ==>
      var r := FieldError(form, field);
      && (r.Some? <==> !ClientEmail(form.email))
      && (r.Some? ==> r.value == if IsBlank(form.email) then EmailRequired else EmailInvalid)
    ensures field == PhoneField ==>
      var r := FieldError(form, field);
      && (r.Some? <==> !UserController.TenDigits(form.phone))
      && (r.Some? ==> r.value == if IsBlank(form.phone) then PhoneRequired else PhoneInvalid)
    ensures field == DobField ==>
      var r := FieldError(form, field);
      (r.Some? <==> form.dob == "") && (r.Some? ==> r.value == DobRequired)
    ensures field == PhotoField ==>
      var r := FieldError(form, field);
      (r.Some? <==> form.photo.None?) && (r.Some? ==> r.value == PhotoRequired)
  {
    match field
    case NameField => TrimEmptyIffBlank(form.name);
    case EmailField =>
      TrimEmptyIffBlank(form.email);
      BlankIsNotEmail(form.email);
    case PhoneField =>
      TrimEmptyIffBlank(form.phone);
      BlankIsNotTenDigits(form.phone);
    case DobField =>
    case PhotoField =>
  }

  /** A form is valid exactly when no field has an error. */
  lemma FormValidIffNoFieldError(form: FormData)
    ensures FormValid(form) <==> forall f :: FieldError(form, f).None?
  {
    FieldErrorMeaning(form, NameField);
    FieldErrorMeaning(form, EmailField);
    FieldErrorMeaning(form, PhoneField);
    FieldErrorMeaning(form, DobField);
    FieldErrorMeaning(form, PhotoField);
    if FormValid(form) {
      forall f
        ensures FieldError(form, f).None?
      {
        match f
        case NameField =>
        case EmailField =>
        case PhoneField =>
        case DobField =>
        case PhotoField =>
      }
    }
  }

  /** The same, field by field in `validateForm`'s order. */
  lemma FormValidIffFiveChecksPass(form: FormData)
    ensures FormValid(form) <==>
      && FieldError(form, NameField).None? && FieldError(form, EmailField).None?
      && FieldError(form, PhoneField).None? && FieldError(form, DobField).None?
      && FieldError(form, PhotoField).None?
  {
    FieldErrorMeaning(form, NameField);
    FieldErrorMeaning(form, EmailField);
    FieldErrorMeaning(form, PhoneField);
    FieldErrorMeaning(form, DobField);
    FieldErrorMeaning(form, PhotoField);
  }

  /** `validateForm`: the checks of the five fields in the order name, e-mail, phone, date
      of birth, photo; each failing check records its field's error and clears `isValid`. */
  method ValidateForm(form: FormData) returns (errors: FormErrors, isValid: bool)
    ensures errors.name == FieldError(form, NameField)
    ensures errors.email == FieldError(form, EmailField)
    ensures errors.phone == FieldError(form, PhoneField)
    ensures errors.dob == FieldError(form, DobField)
    ensures errors.photo == FieldError(form, PhotoField)
    ensures isValid <==> errors == NoErrors
    ensures isValid <==> FormValid(form)
  {
    errors := NoErrors;
    isValid := true;
    var e := FieldError(form, NameField);
    if e.Some? {
      errors := errors.(name := e);
      isValid := false;
    }
    e := FieldError(form, EmailField);
    if e.Some? {
      errors := errors.(email := e);
      isValid := false;
    }
    e := FieldError(form, PhoneField);
    if e.Some? {
      errors := errors.(phone := e);
      isValid := false;
    }
    e := FieldError(form, DobField);
    if e.Some? {
      errors := errors.(dob := e);
      isValid := false;
    }
    e := FieldError(form, PhotoField);
    if e.Some? {
      errors := errors.(photo := e);
      isValid := false;
    }
    FormValidIffFiveChecksPass(form);
  }

  lemma BlankIsNotEmail(s: string)
    ensures IsBlank(s) ==> !ClientEmail(s)
  {
    if IsBlank(s) {
      forall a: int, d: int | 0 < a && a + 1 < d && d + 1 < |s|
        ensures !ClientEmailAt(s, a, d)
      {
        assert IsSpace(s[0]);
      }
    }
  }

  lemma BlankIsNotTenDigits(s: string)
    ensures IsBlank(s) ==> !UserController.TenDigits(s)
  {
    if IsBlank(s) && |s| == 10 {
      assert IsSpace(s[0]);
    }
  }

  /** The request body `handleSubmit` sends, every field rendered as a string. */
  function RegisterBodyOf(form: FormData): UserController.RegisterBody {
    UserController.RegisterBody(form.name, form.email, form.phone, form.dob, PlanId(form.plan),
                                form.startDate, form.endDate, PaymentMethodId(form.paymentMethod))
  }

  /** A form that passes validation, with both dates rendered, passes every field check of
      the server's `register`. */
  lemma ValidFormPassesServerChecks(form: FormData)
    requires FormValid(form) && form.startDate != "" && form.endDate != ""
    ensures UserController.RegistrationAccepted(RegisterBodyOf(form))
  {
    ClientEmailIsLoose(form.email);
    assert form.name != "";
    assert PlanId(form.plan) != "";
    assert PaymentMethodId(form.paymentMethod) != "";
  }

  /** The body `register` receives as the server is wired: the form goes out as multipart
      form data, the registration route has no multipart parser, and the JSON and
      URL-encoded parsers the server installs leave such a body unread, so no field
      arrives. */
  function BodyAsWired(form: FormData): (b: UserController.RegisterBody)
    ensures b.name == "" && b.email == "" && b.phone == "" && b.dob == ""
    ensures b.plan == "" && b.startDate == "" && b.endDate == "" && b.paymentMethod == ""
  {
    UserController.RegisterBody("", "", "", "", "", "", "", "")
  }

  /** As wired, even a form that passes validation fails all eight field checks of
      `register`, although the body it builds would pass every one of them. */
  lemma ValidFormRejectedAsWired(form: FormData)
    requires FormValid(form) && form.startDate != "" && form.endDate != ""
    ensures UserController.RegistrationAccepted(RegisterBodyOf(form))
    ensures forall i :: 0 <= i < 8 ==> UserController.FieldRejected(BodyAsWired(form), i)
    ensures !UserController.RegistrationAccepted(BodyAsWired(form))
  {
    ValidFormPassesServerChecks(form);
    assert UserController.FieldRejected(BodyAsWired(form), 0);
  }

  /** What the debounced e-mail check finds out, when it asks the server. */
  datatype Lookup = LookupFailed | Found(taken: bool)

  const EmailTakenMessage := "This email is already registered"

  /** The effect of the e-mail check on the state: an address that does not match asks
      nothing and clears the flag; otherwise the server's answer sets it, and a failed
      request clears it. */
  function CheckEmail(state: FormState, lookup: Lookup): (r: FormState)
    ensures r.emailExists <==> ClientEmail(state.data.email) && lookup == Found(true)
    ensures r.emailExists ==> r.errors == state.errors.(email := Some(EmailTakenMessage))
    ensures !r.emailExists ==> r.errors == state.errors.(email := None)
    ensures r.data == state.data && r.selectedPlan == state.selectedPlan
  {
    if state.data.email == "" || !ClientEmail(state.data.email) || lookup != Found(true) then
      state.(emailExists := false, errors := state.errors.(email := None))
    else
      state.(emailExists := true, errors := state.errors.(email := Some(EmailTakenMessage)))
  }

  const FixErrorsToast := "Please fix the errors in the form"
  const EmailKnownToast := "This email is already registered. Please use a different email."

  /** The first step of `handleSubmit`: stop on a failed validation, stop when the address
      is known to be taken, send otherwise. */
  datatype SubmitStep = StopInvalid(toast: string) | StopEmailKnown(toast: string) | Send(body: UserController.RegisterBody)

  /** `handleSubmit` up to the request: validation sets the errors, and the request is sent
      only for a valid form whose address is not known to be taken. */
  method Submit(state: FormState) returns (next: FormState, step: SubmitStep)
    ensures step.Send? <==> FormValid(state.data) && !state.emailExists
    ensures step.Send? ==> step.body == RegisterBodyOf(state.data)
    ensures !FormValid(state.data) ==> step == StopInvalid(FixErrorsToast)
    ensures FormValid(state.data) && state.emailExists ==> step == StopEmailKnown(EmailKnownToast)
    ensures next.data == state.data && next.emailExists == state.emailExists
    ensures next.errors == NoErrors <==> FormValid(state.data)
  {
    var errors, isValid := ValidateForm(state.data);
    next := state.(errors := errors);
    if !isValid {
      step := StopInvalid(FixErrorsToast);
    } else if state.emailExists {
      step := StopEmailKnown(EmailKnownToast);
    } else {
      step := Send(RegisterBodyOf(state.data));
    }
  }

  /** The `message` of the server's JSON answer: absent, a string or a list of strings. */
  datatype MessageValue = NoMessage | Text(text: string) | Texts(items: seq<string>)

  /** `message?.includes(t)`: a substring test on a string, a membership test on a list. */
  predicate Includes(m: MessageValue, t: string) {
    match m
    case NoMessage => false
    case Text(s) => Contains(s, t)
    case Texts(items) => t in items
  }

  /** `message || fallback`. */
  function OrElse(m: MessageValue, fallback: string): (r: MessageValue)
    ensures m == NoMessage || m == Text("") ==> r == Text(fallback)
    ensures m != NoMessage && m != Text("") ==> r == m
  {
    if m == NoMessage || m == Text("") then Text(fallback) else m
  }

  /** The `message` of `new Error(m)`: a list is joined with commas. */
  function ErrorText(m: MessageValue): string {
    match m
    case NoMessage => ""
    case Text(s) => s
    case Texts(items) => Join(items, ',')
  }

  /** Which branch of a 400 answer is taken. */
  datatype Reading = EmailTaken | PhoneTaken | OtherProblem

  /** The 400 branch as written: case-sensitive tests for "email", then "phone". */
  function Classify(m: MessageValue): (r: Reading)
    ensures r == EmailTaken <==> Includes(m, "email")
    ensures r == PhoneTaken <==> !Includes(m, "email") && Includes(m, "phone")
  {
    if Includes(m, "email") then EmailTaken
    else if Includes(m, "phone") then PhoneTaken
    else OtherProblem
  }

  /** The answer to the registration request. */
  datatype Response = Response(ok: bool, status: nat, message: MessageValue)

  /** The state after the answer, the toasts shown in order, and whether the page moved
      on to the thank-you page. */
  datatype Answered = Answered(state: FormState, toasts: seq<string>, navigated: bool)

  const SuccessToast := "Registration successful! Please check your email."
  const PhoneTakenMessage := "This phone number is already registered"
  const PhoneTakenToast := "This phone number is already registered. Please use a different phone number."
  const CheckInformationToast := "Registration failed. Please check your information."
  const TryAgainToast := "Registration failed. Please try again."
  const RetryToast := "Registration failed. Please check your information and try again."

  /** The toast of the `catch` block for the error thrown with message `e`: none for the
      two errors that were already announced. */
  function CatchToasts(e: string): (r: seq<string>)
    ensures r == [] <==> Contains(e, "Email already exists") || Contains(e, "Phone number already exists")
    ensures r != [] ==> r == [RetryToast]
  {
    if Contains(e, "Email already exists") || Contains(e, "Phone number already exists") then []
    else [RetryToast]
  }

  /** The script of `handleSubmit` after the request, given the branch `reading` that a
      400 answer takes. */
  function Respond(state: FormState, resp: Response, reading: Reading): (r: Answered)
    ensures r.navigated <==> resp.ok
    ensures resp.ok ==> r == Answered(state, [SuccessToast], true)
    ensures !resp.ok && resp.status == 400 && reading == EmailTaken ==>
      r.state == state.(emailExists := true, errors := state.errors.(email := Some(EmailTakenMessage))) &&
      r.toasts == [EmailKnownToast]
    ensures !resp.ok && resp.status == 400 && reading == PhoneTaken ==>
      r.state == state.(errors := state.errors.(phone := Some(PhoneTakenMessage))) &&
      r.toasts == [PhoneTakenToast]
    ensures !resp.ok && (resp.status != 400 || reading == OtherProblem) ==>
      r.state == state &&
      r.toasts == [ErrorText(OrElse(resp.message, if resp.status == 400 then CheckInformationToast else TryAgainToast))] +
                  CatchToasts(ErrorText(OrElse(resp.message, "Registration failed")))
  {
    if resp.ok then Answered(state, [SuccessToast], true)
    else if resp.status == 400 && reading == EmailTaken then
      ContainsItself("Email already exists");
      Answered(state.(emailExists := true, errors := state.errors.(email := Some(EmailTakenMessage))),
               [EmailKnownToast] + CatchToasts("Email already exists"), false)
    else if resp.status == 400 && reading == PhoneTaken then
      ContainsItself("Phone number already exists");
      Answered(state.(errors := state.errors.(phone := Some(PhoneTakenMessage))),
               [PhoneTakenToast] + CatchToasts("Phone number already exists"), false)
    else
      var shown := OrElse(resp.message, if resp.status == 400 then CheckInformationToast else TryAgainToast);
      Answered(state, [ErrorText(shown)] + CatchToasts(ErrorText(OrElse(resp.message, "Registration failed"))), false)
  }

  /** `handleSubmit` after the request, as written. */
  function HandleResponse(state: FormState, resp: Response): Answered {
    Respond(state, resp, Classify(resp.message))
  }

  /** The server's two duplicate answers, "Email already registered" and "Phone number
      already registered", are capitalised, so the case-sensitive tests miss both: the
      form marks neither field and shows the server's text with the generic retry toast. */
  lemma DuplicateEmailReplyMisread(state: FormState)
    ensures HandleResponse(state, Response(false, 400, Text("Email already registered"))) ==
      Answered(state, ["Email already registered", RetryToast], false)
  {
    EmailReplyReadAsOther();
  }

  lemma EmailReplyReadAsOther()
    ensures Classify(Text("Email already registered")) == OtherProblem
    ensures CatchToasts("Email already registered") == [RetryToast]
  {
    EmailNotInEmailReply();
    NotContainsWithoutHead("Email already registered", "phone");
    EmailReplyNotAlreadyExists();
    NotContainsWithoutHead("Email already registered", "Phone number already exists");
  }

  lemma DuplicatePhoneReplyMisread(state: FormState)
    ensures HandleResponse(state, Response(false, 400, Text("Phone number already registered"))) ==
      Answered(state, ["Phone number already registered", RetryToast], false)
  {
    PhoneReplyReadAsOther();
  }

  lemma PhoneReplyReadAsOther()
    ensures Classify(Text("Phone number already registered")) == OtherProblem
    ensures CatchToasts("Phone number already registered") == [RetryToast]
  {
    EmailNotInPhoneReply();
    PhoneReplyHeads();
    NotContainsWithoutHead("Phone number already registered", "phone");
    NotContainsWithoutHead("Phone number already registered", "Email already exists");
    PhoneReplyNotAlreadyExists();
  }

  /** The server's phone answer has neither a lower-case 'p' nor an 'E'. */
  lemma PhoneReplyHeads()
    ensures "phone"[0] !in "Phone number already registered"
    ensures "Email already exists"[0] !in "Phone number already registered"
  {
  }

  /** The 400 branch as evidently intended: the same tests on the lower-cased message. */
  function ClassifyIgnoringCase(m: MessageValue): (r: Reading)
    ensures r == EmailTaken <==> Includes(LowerMessage(m), "email")
    ensures r == PhoneTaken <==> !Includes(LowerMessage(m), "email") && Includes(LowerMessage(m), "phone")
  {
    Classify(LowerMessage(m))
  }

  /** A string message lower-cased; a list is tested element by element and left alone. */
  function LowerMessage(m: MessageValue): MessageValue {
    if m.Text? then Text(ToLower(m.text)) else m
  }

  /** `handleSubmit` after the request, with the case-insensitive tests. */
  function HandleResponseIgnoringCase(state: FormState, resp: Response): Answered {
    Respond(state, resp, ClassifyIgnoringCase(resp.message))
  }

  /** With the case-insensitive tests both duplicate answers mark their field. */
  lemma DuplicateRepliesRecognised(state: FormState)
    ensures HandleResponseIgnoringCase(state, Response(false, 400, Text("Email already registered"))).state ==
      state.(emailExists := true, errors := state.errors.(email := Some(EmailTakenMessage)))
    ensures HandleResponseIgnoringCase(state, Response(false, 400, Text("Phone number already registered"))).state ==
      state.(errors := state.errors.(phone := Some(PhoneTakenMessage)))
  {
    LoweredReplyStartsWith("Email already registered", "email");
    EmailNotInLoweredPhoneReply();
    LoweredReplyStartsWith("Phone number already registered", "phone");
  }

  /** On messages without capitals the case-insensitive reading is the original one. */
  lemma IgnoringCaseAgreesOnLowerCase(m: MessageValue)
    requires m.Text? ==> IsLowerCase(m.text)
    ensures ClassifyIgnoringCase(m) == Classify(m)
  {
    if m.Text? {
      ToLowerOfLowerCase(m.text);
    }
  }

  lemma EmailNotInEmailReply()
    ensures !Contains("Email already registered", "email")
  {
    NotContainsAroundSecond("E", 'm', "ail already registered", "email");
    assert "E" + ['m'] + "ail already registered" == "Email already registered";
  }

  lemma EmailNotInPhoneReply()
    ensures !Contains("Phone number already registered", "email")
  {
    NotContainsAroundSecond("Phone nu", 'm', "ber already registered", "email");
    PhoneReplyPieces();
  }

  lemma PhoneReplyPieces()
    ensures "Phone number already registered" == "Phone nu" + ['m'] + "ber already registered"
  {
  }

  lemma EmailReplyNotAlreadyExists()
    ensures !Contains("Email already registered", "Email already exists")
  {
    var s, t := "Email already registered", "Email already exists";
    forall i | 0 <= i <= |s| - |t|
      ensures !OccursAt(s, t, i)
    {
      if i == 0 {
        assert s[i..i + |t|][14] == s[14] == 'r';
      } else {
        assert s[i..i + |t|][0] == s[i] != 'E';
      }
    }
  }

  lemma PhoneReplyNotAlreadyExists()
    ensures !Contains("Phone number already registered", "Phone number already exists")
  {
    var s, t := "Phone number already registered", "Phone number already exists";
    forall i | 0 <= i <= |s| - |t|
      ensures !OccursAt(s, t, i)
    {
      if i == 0 {
        assert s[i..i + |t|][21] == s[21] == 'r';
      } else {
        assert s[i..i + |t|][0] == s[i] != 'P';
      }
    }
  }

  /** A reply whose lower-cased text starts with `w` contains `w` once lower-cased. */
  lemma LoweredReplyStartsWith(reply: string, w: string)
    requires |w| <= |reply| && ToLower(reply)[..|w|] == w
    ensures Contains(ToLower(reply), w)
  {
    ContainsAt(ToLower(reply), w, 0);
  }

  lemma EmailNotInLoweredPhoneReply()
    ensures !Contains(ToLower("Phone number already registered"), "email")
  {
    var a, b := "Phone nu", "ber already registered";
    PhoneReplyPieces();
    ToLowerAppend(a + ['m'], b);
    ToLowerAppend(a, ['m']);
    LoweredPhoneReplyHead();
    LoweredPhoneReplyTail();
    assert ToLower(['m']) == ['m'];
    NotContainsAroundSecond(ToLower(a), 'm', ToLower(b), "email");
  }

  lemma LoweredPhoneReplyHead()
    ensures 'm' !in ToLower("Phone nu") && ToLower("Phone nu")[7] == 'u'
  {
    LowerAbsent("Phone nu", 'm');
  }

  lemma LoweredPhoneReplyTail()
    ensures 'm' !in ToLower("ber already registered")
  {
    LowerAbsent("ber already registered", 'm');
  }
}
