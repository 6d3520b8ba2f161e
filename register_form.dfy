/** The sign-up page: its client-side checks (`validateForm`), how typing into a field
    updates the form (`handleChange`), the body it posts to `/register` and what a
    successful or failed submission leaves on the page. */
module RegisterForm {
  import opened Common
  import Accounts

  datatype Field = FirstName | LastName | Email | Status | Password | ConfirmPassword | Nidn | Nim

  /** `formData`: every input's current text. */
  datatype Form = Form(
    firstName: string,
    lastName: string,
    email: string,
    status: string,
    password: string,
    confirmPassword: string,
    nidn: string,
    nim: string)

  const EmptyForm := Form("", "", "", "", "", "", "", "")

  /** The values of the status select; "" is its "Select Status" placeholder. */
  const StatusOptions: seq<string> := ["", "dosen", "mahasiswa", "staff"]

  function Get(f: Form, field: Field): string {
    match field
    case FirstName => f.firstName
    case LastName => f.lastName
    case Email => f.email
    case Status => f.status
    case Password => f.password
    case ConfirmPassword => f.confirmPassword
    case Nidn => f.nidn
    case Nim => f.nim
  }

  /** `{ ...formData, [name]: value }` */
  function Set(f: Form, field: Field, value: string): (r: Form)
    ensures Get(r, field) == value
    ensures forall g :: g != field ==> Get(r, g) == Get(f, g)
  {
    match field
    case FirstName => f.(firstName := value)
    case LastName => f.(lastName := value)
    case Email => f.(email := value)
    case Status => f.(status := value)
    case Password => f.(password := value)
    case ConfirmPassword => f.(confirmPassword := value)
    case Nidn => f.(nidn := value)
    case Nim => f.(nim := value)
  }

  const FirstNameRequired: string := "First Name wajib diisi"
  const LastNameRequired: string := "Last Name wajib diisi"
  const EmailRequired: string := "Email wajib diisi"
  const EmailInvalid: string := "Format email tidak valid"
  const StatusRequired: string := "Status wajib dipilih"
  const NidnMissing: string := "NIDN wajib diisi untuk dosen"
  const NimMissing: string := "NIM/NPM wajib diisi untuk mahasiswa"
  const PasswordRequired: string := "Password wajib diisi"
  const PasswordShort: string := "Password minimal 6 karakter"
  const ConfirmRequired: string := "Konfirmasi password wajib diisi"
  const PasswordMismatch: string := "Password tidak cocok"

  const MinPasswordLength := 6

  /** The rule for each field on its own: the message shown under it, if any. */
  function FieldError(f: Form, field: Field): Option<string> {
    match field
    case FirstName => FirstNameError(f)
    case LastName => LastNameError(f)
    case Email => EmailError(f)
    case Status => StatusError(f)
    case Nidn => NidnError(f)
    case Nim => NimError(f)
    case Password => PasswordError(f)
    case ConfirmPassword => ConfirmError(f)
  }

  function FirstNameError(f: Form): Option<string> {
    if Blank(f.firstName) then Some(FirstNameRequired) else None
  }

  function LastNameError(f: Form): Option<string> {
    if Blank(f.lastName) then Some(LastNameRequired) else None
  }

  /** Blank first; otherwise the pattern `/^[^\s@]+@[^\s@]+\.[^\s@]+$/`. */
  function EmailError(f: Form): Option<string> {
    if Blank(f.email) then Some(EmailRequired)
    else if !Accounts.EmailPattern(f.email) then Some(EmailInvalid)
    else None
  }

  function StatusError(f: Form): Option<string> {
    if f.status == "" then Some(StatusRequired) else None
  }

  /** The NIDN is required of a dosen only. */
  function NidnError(f: Form): Option<string> {
    if f.status == "dosen" && Blank(f.nidn) then Some(NidnMissing) else None
  }

  /** The NIM is required of a mahasiswa only. */
  function NimError(f: Form): Option<string> {
    if f.status == "mahasiswa" && Blank(f.nim) then Some(NimMissing) else None
  }

  function PasswordError(f: Form): Option<string> {
    if f.password == "" then Some(PasswordRequired)
    else if |f.password| < MinPasswordLength then Some(PasswordShort)
    else None
  }

  /** The confirmation must be present and equal to the password. */
  function ConfirmError(f: Form): Option<string> {
    if f.confirmPassword == "" then Some(ConfirmRequired)
    else if f.password != f.confirmPassword then Some(PasswordMismatch)
    else None
  }

  /** The form passes every field rule. */
  predicate FormValid(f: Form) {
    forall field :: FieldError(f, field).None?
  }

  /** `errors` / `newErrors`: the message shown under each field, `None` for a field the
      object has no key for. */
  datatype Errors = Errors(
    firstName: Option<string>,
    lastName: Option<string>,
    email: Option<string>,
    status: Option<string>,
    password: Option<string>,
    confirmPassword: Option<string>,
    nidn: Option<string>,
    nim: Option<string>)

  /** `{}` */
  const NoErrors := Errors(None, None, None, None, None, None, None, None)

  /** `errors[field]` */
  function ErrorOf(e: Errors, field: Field): Option<string> {
    match field
    case FirstName => e.firstName
    case LastName => e.lastName
    case Email => e.email
    case Status => e.status
    case Password => e.password
    case ConfirmPassword => e.confirmPassword
    case Nidn => e.nidn
    case Nim => e.nim
  }

  /** `{ ...errors, [field]: text }` */
  function WithError(e: Errors, field: Field, text: string): (r: Errors)
    ensures ErrorOf(r, field) == Some(text)
    ensures forall g :: g != field ==> ErrorOf(r, g) == ErrorOf(e, g)
  {
    match field
    case FirstName => e.(firstName := Some(text))
    case LastName => e.(lastName := Some(text))
    case Email => e.(email := Some(text))
    case Status => e.(status := Some(text))
    case Password => e.(password := Some(text))
    case ConfirmPassword => e.(confirmPassword := Some(text))
    case Nidn => e.(nidn := Some(text))
    case Nim => e.(nim := Some(text))
  }

  /** `Object.keys(errors).length === 0` */
  lemma NoErrorsIffNoKey(e: Errors)
    ensures e == NoErrors <==> forall field :: ErrorOf(e, field).None?
  {
    if forall field :: ErrorOf(e, field).None? {
      assert ErrorOf(e, FirstName).None? && ErrorOf(e, LastName).None? && ErrorOf(e, Email).None?;
      assert ErrorOf(e, Status).None? && ErrorOf(e, Password).None? && ErrorOf(e, ConfirmPassword).None?;
      assert ErrorOf(e, Nidn).None? && ErrorOf(e, Nim).None?;
    }
  }

  /** The body of `validateForm` up to `setErrors`: builds `newErrors` one check after another.
      Every field carries exactly the message its rule gives, and the result is empty exactly
      when the form is valid. */
  method NewErrors(f: Form) returns (errs: Errors)
    ensures forall field :: ErrorOf(errs, field) == FieldError(f, field)
    ensures errs == NoErrors <==> FormValid(f)
  {
    var firstName, lastName, email, status: Option<string> := None, None, None, None;
    var password, confirmPassword, nidn, nim: Option<string> := None, None, None, None;
    if Blank(f.firstName) {
      firstName := Some(FirstNameRequired);
    }
    assert firstName == FirstNameError(f);
    if Blank(f.lastName) {
      lastName := Some(LastNameRequired);
    }
    assert lastName == LastNameError(f);
    if Blank(f.email) {
      email := Some(EmailRequired);
    } else if !Accounts.EmailPattern(f.email) {
      email := Some(EmailInvalid);
    }
    assert email == EmailError(f);
    if f.status == "" {
      status := Some(StatusRequired);
    }
    assert status == StatusError(f);
    assert "dosen"[0] != "mahasiswa"[0];
    if f.status == "dosen" && Blank(f.nidn) {
      nidn := Some(NidnMissing);
    } else if f.status == "mahasiswa" && Blank(f.nim) {
      nim := Some(NimMissing);
    }
    assert nidn == NidnError(f) && nim == NimError(f);
    if f.password == "" {
      password := Some(PasswordRequired);
    } else if |f.password| < MinPasswordLength {
      password := Some(PasswordShort);
    }
    assert password == PasswordError(f);
    if f.confirmPassword == "" {
      confirmPassword := Some(ConfirmRequired);
    } else if f.password != f.confirmPassword {
      confirmPassword := Some(PasswordMismatch);
    }
    assert confirmPassword == ConfirmError(f);
    errs := Errors(firstName, lastName, email, status, password, confirmPassword, nidn, nim);
    Agreement(f, errs);
  }

  /** Errors whose every field holds that field's rule agree with the rules everywhere, and
      are empty exactly when the form is valid. */
  lemma Agreement(f: Form, e: Errors)
    requires e == Errors(FirstNameError(f), LastNameError(f), EmailError(f), StatusError(f),
                         PasswordError(f), ConfirmError(f), NidnError(f), NimError(f))
    ensures forall field :: ErrorOf(e, field) == FieldError(f, field)
    ensures e == NoErrors <==> FormValid(f)
  {
    assert forall field :: ErrorOf(e, field) == FieldError(f, field) by {
      forall field ensures ErrorOf(e, field) == FieldError(f, field) {
        match field
        case FirstName => case LastName => case Email => case Status =>
        case Nidn => case Nim => case Password => case ConfirmPassword =>
      }
    }
    NoErrorsIffNoKey(e);
  }

  /** A dosen with an empty NIDN gets the NIDN error and no NIM error; a mahasiswa with an
      empty NIM gets the NIM error and no NIDN error; a staff member gets neither. */
  lemma IdentityErrors(f: Form)
    ensures f.status == "dosen" && Blank(f.nidn) ==>
      FieldError(f, Nidn) == Some(NidnMissing) && FieldError(f, Nim).None?
    ensures f.status == "mahasiswa" && Blank(f.nim) ==>
      FieldError(f, Nim) == Some(NimMissing) && FieldError(f, Nidn).None?
    ensures f.status == "staff" ==> FieldError(f, Nidn).None? && FieldError(f, Nim).None?
  {
    assert "dosen"[0] != "mahasiswa"[0] && "staff"[0] != "dosen"[0] && "staff"[0] != "mahasiswa"[0];
  }

  /** `submitData`: trimmed names, a trimmed and lower-cased email, the status and password,
      and the NIDN only for a dosen, the NIM only for a mahasiswa. The confirmation is never
      part of it. */
  function BuildPayload(f: Form): (p: Accounts.RegisterPayload)
    ensures p.firstName == Some(Trim(f.firstName)) && p.lastName == Some(Trim(f.lastName))
    ensures p.email == Some(ToLower(Trim(f.email))) && Accounts.IsLower(p.email.value)
    ensures p.status == Some(f.status) && p.password == Some(f.password)
    ensures p.nidn.Some? <==> f.status == "dosen"
    ensures p.nim.Some? <==> f.status == "mahasiswa"
    ensures p.nidn.Some? ==> p.nidn.value == Trim(f.nidn)
    ensures p.nim.Some? ==> p.nim.value == Trim(f.nim)
  {
    Accounts.IsLowerToLower(Trim(f.email));
    assert "dosen"[0] != "mahasiswa"[0];
    var nidn := if f.status == "dosen" then Some(Trim(f.nidn)) else None;
    var nim := if f.status == "dosen" then None else if f.status == "mahasiswa" then Some(Trim(f.nim)) else None;
    Accounts.RegisterPayload(Some(Trim(f.firstName)), Some(Trim(f.lastName)), Some(ToLower(Trim(f.email))),
                             Some(f.status), Some(f.password), nidn, nim)
  }

  /** Lower-casing keeps a string inside the email pattern. */
  lemma EmailPatternLower(s: string)
    requires Accounts.EmailPattern(s)
    ensures Accounts.EmailPattern(ToLower(s))
  {
    var at, dot :| 0 < at < |s| && at + 1 < dot < |s| - 1 && s[at] == '@' && s[dot] == '.'
      && forall k :: 0 <= k < |s| && k != at ==> Accounts.PlainChar(s[k]);
    var t := ToLower(s);
    LowerCharKeepsClass(s[at]);
    LowerCharKeepsClass(s[dot]);
    forall k | 0 <= k < |t| && k != at ensures Accounts.PlainChar(t[k]) {
      LowerCharKeepsClass(s[k]);
    }
    assert t[at] == '@' && t[dot] == '.';
  }

  /** A form that passes the client's checks, with a status taken from the select, is let
      through by every one of the backend's 400 checks: the client never posts a body the
      server rejects as malformed. */
  lemma ValidFormPassesServerChecks(f: Form)
    requires FormValid(f) && f.status in StatusOptions
    ensures Accounts.FieldRejection(BuildPayload(f)).None?
  {
    var p := BuildPayload(f);
    assert FieldError(f, FirstName).None? && FieldError(f, LastName).None?;
    assert FieldError(f, Email).None? && FieldError(f, Status).None? && FieldError(f, Password).None?;
    assert FieldError(f, Nidn).None? && FieldError(f, Nim).None?;
    Accounts.EmailPatternNoSpace(f.email);
    TrimNoSpace(f.email);
    EmailPatternLower(f.email);
    Accounts.NormalisedEmail(ToLower(f.email));
    assert p.email == Some(ToLower(f.email));
    Accounts.StatusesDistinct();
    assert p.status.value in Accounts.Statuses;
  }

  /** The account the backend creates from such a body holds exactly what the client sent:
      trimming the already trimmed names and email again changes nothing. */
  lemma ServerStoresWhatClientSent(f: Form)
    requires FormValid(f) && f.status in StatusOptions
    ensures var a := Accounts.NewAccount((ValidFormPassesServerChecks(f); BuildPayload(f)));
      && a.firstName == Trim(f.firstName) && a.lastName == Trim(f.lastName)
      && a.email == ToLower(f.email) && a.role == f.status
  {
    ValidFormPassesServerChecks(f);
    TrimIdempotent(f.firstName);
    TrimIdempotent(f.lastName);
    assert FieldError(f, Email).None?;
    Accounts.EmailPatternNoSpace(f.email);
    TrimNoSpace(f.email);
    EmailPatternLower(f.email);
    Accounts.NormalisedEmail(ToLower(f.email));
    Accounts.ToLowerIdempotent(f.email);
  }

  /** The banner above the form: `{ type, text }`. */
  datatype Message = Message(kind: string, text: string)

  const NoMessage := Message("", "")
  const Registered: string := "Registrasi berhasil! Silakan login dengan akun Anda."

  /** How the `POST /register` request ended. A failure carries the banner text the page
      derives from the error, and the status of the error response when there was one. */
  datatype SubmitOutcome = Accepted | Failed(text: string, status: Option<int>)

  class RegisterPage {
    var form: Form
    var errors: Errors
    var message: Message
    /** The status of the last error response, shown as debugging detail. */
    var debugStatus: Option<int>
    var isLoading: bool

    constructor()
      ensures form == EmptyForm && errors == NoErrors && message == NoMessage
      ensures debugStatus.None? && !isLoading
    {
      form := EmptyForm;
      errors := NoErrors;
      message := NoMessage;
      debugStatus := None;
      isLoading := false;
    }

    /** `validateForm`: replaces the shown errors by the current ones, and answers whether
        there are none. */
    method ValidateForm() returns (ok: bool)
      modifies this
      ensures forall field :: ErrorOf(errors, field) == FieldError(form, field)
      ensures ok <==> FormValid(form)
      ensures form == old(form) && message == old(message) && debugStatus == old(debugStatus)
      ensures isLoading == old(isLoading)
    {
      errors := NewErrors(form);
      ok := errors == NoErrors;
    }

    /** `handleChange` for input `name` receiving `value`. The field takes the value, its shown
        error (if any) is blanked, the banner and debugging detail go away, and choosing a
        status empties both the NIDN and the NIM. */
    method HandleChange(name: Field, value: string)
      modifies this
      ensures Get(form, name) == value
      ensures name == Status ==> form.nidn == "" && form.nim == ""
      ensures forall g :: g != name && !(name == Status && (g == Nidn || g == Nim)) ==>
        Get(form, g) == Get(old(form), g)
      ensures errors == if Truthy(ErrorOf(old(errors), name)) then WithError(old(errors), name, "") else old(errors)
      ensures message == if old(message).text != "" then NoMessage else old(message)
      ensures debugStatus.None? && isLoading == old(isLoading)
    {
      form := Set(form, name, value);
      if Truthy(ErrorOf(errors, name)) {
        errors := WithError(errors, name, "");
      }
      if message.text != "" {
        message := NoMessage;
      }
      debugStatus := None;
      if name == Status {
        form := Set(Set(form, Nidn, ""), Nim, "");
      }
    }

    /** `handleSubmit`: nothing is posted unless the form is valid; otherwise `BuildPayload` is
        posted, and on success the banner announces it and every field is emptied, while on
        failure the form is kept and the banner shows the error. Loading ends either way. */
    method HandleSubmit(outcome: SubmitOutcome) returns (sent: Option<Accounts.RegisterPayload>)
      modifies this
      ensures sent.Some? <==> FormValid(old(form))
      ensures sent.Some? ==> sent.value == BuildPayload(old(form))
      ensures forall field :: ErrorOf(errors, field) == FieldError(old(form), field)
      ensures sent.None? ==> form == old(form) && message == old(message) && isLoading == old(isLoading)
      ensures sent.Some? && outcome.Accepted? ==> form == EmptyForm && message == Message("success", Registered)
      ensures sent.Some? && outcome.Failed? ==> form == old(form) && message == Message("danger", outcome.text)
      ensures sent.Some? && outcome.Failed? && outcome.status.Some? ==> debugStatus == outcome.status
      ensures (sent.None? || outcome.Accepted? || outcome.status.None?) ==> debugStatus == old(debugStatus)
      ensures sent.Some? ==> !isLoading
    {
      var ok := ValidateForm();
      if !ok {
        sent := None;
        return;
      }
      isLoading := true;
      message := NoMessage;
      sent := Some(BuildPayload(form));
      match outcome {
        case Accepted =>
          message := Message("success", Registered);
          form := EmptyForm;
        case Failed(text, status) =>
          message := Message("danger", text);
          if status.Some? {
            debugStatus := status;
          }
      }
      isLoading := false;
    }
  }
}
