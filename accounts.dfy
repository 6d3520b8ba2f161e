/** The account side of the backend: the `users` and `login_history` tables, the
    in-memory one-time-password ledger, and the handlers that read and write them
    (registration, login, the role gate, password recovery, profile update and the
    login-history endpoints). */
module Accounts {
  import opened Common
  import opened Tables
  import Jwt

  // ---------------------------------------------------------------------------
  // Reply messages

  const UserNotFound: string := "User not found"
  const IncorrectPassword: string := "Incorrect password"
  const ResetDone: string := "Password reset successful"
  const OtpSent: string := "OTP sent to your email"
  const HistoryNotFound: string := "Login history record not found"
  const HistoryDeleted: string := "Login history record deleted successfully"
  const OtpInvalid: string := "Invalid or expired OTP"
  const OtpVerified: string := "OTP verified"
  const IdRequired: string := "ID parameter is required"
  const EmailNotFound: string := "Email not found"
  const ReadBackFailed: string := "Cannot read properties of undefined (reading 'profile_picture')"
  const NameFieldMissing: string := "Cannot read properties of undefined (reading '0')"
  const ServerError: string := "An internal server error occurred"
  const AllHistoryDeleted: string := "All login history deleted."
  const AccessDenied: string := "Akses ditolak"

  // ---------------------------------------------------------------------------
  // Password hashing

  /** A bcrypt digest, idealised: it determines the password it was made from. */
  datatype Digest = Digest(secret: string)

  /** `bcrypt.hash(password, 10)`; the salt is not modelled. */
  function Hash(password: string): Digest {
    Digest(password)
  }

  /** `bcrypt.compare(password, digest)` */
  predicate Matches(password: string, digest: Digest) {
    digest == Hash(password)
  }

  /** A digest accepts exactly the password it was made from. */
  lemma MatchesOwnPasswordOnly(password: string, other: string)
    ensures Matches(password, Hash(other)) <==> password == other
  {
  }

  // ---------------------------------------------------------------------------
  // The users table

  /** One row of `users` (without its id). `None` is SQL NULL. */
  datatype Account = Account(
    firstName: string,
    lastName: string,
    email: string,
    password: Digest,
    role: string,
    nidn: Option<string>,
    nim: Option<string>,
    profilePicture: Option<string>)

  type Users = seq<Row<Account>>

  /** The three account statuses registration accepts, which become the account's role. */
  const Statuses: seq<string> := ["dosen", "mahasiswa", "staff"]

  /** The three statuses are different strings. */
  lemma StatusesDistinct()
    ensures "dosen" != "mahasiswa" && "dosen" != "staff" && "mahasiswa" != "staff"
    ensures Statuses == ["dosen", "mahasiswa", "staff"]
  {
    assert "dosen"[0] != "staff"[0];
  }

  /** No upper-case ASCII letter. */
  predicate IsLower(s: string) {
    forall k :: 0 <= k < |s| ==> !('A' <= s[k] <= 'Z')
  }

  /** `toLowerCase` produces exactly the strings it leaves unchanged. */
  lemma IsLowerToLower(s: string)
    ensures IsLower(ToLower(s))
    ensures IsLower(s) <==> ToLower(s) == s
  {
    if ToLower(s) == s {
      forall k | 0 <= k < |s| ensures !('A' <= s[k] <= 'Z') {
        assert ToLower(s)[k] == s[k];
      }
    }
  }

  /** Every stored email is already in lower case. */
  ghost predicate EmailsLower(users: Users) {
    forall i :: 0 <= i < |users| ==> IsLower(users[i].data.email)
  }

  /** No two accounts share an email, a NIDN or a NIM (NULLs aside). */
  ghost predicate UniqueKeys(users: Users) {
    forall i, j :: 0 <= i < j < |users| ==>
      && users[i].data.email != users[j].data.email
      && (users[i].data.nidn.Some? ==> users[i].data.nidn != users[j].data.nidn)
      && (users[i].data.nim.Some? ==> users[i].data.nim != users[j].data.nim)
  }

  /** Two versions of the table that agree on ids, emails, NIDNs and NIMs row by row. */
  ghost predicate SameKeys(a: Users, b: Users) {
    && |a| == |b|
    && forall i :: 0 <= i < |a| ==>
      && a[i].id == b[i].id
      && a[i].data.email == b[i].data.email
      && a[i].data.nidn == b[i].data.nidn
      && a[i].data.nim == b[i].data.nim
  }

  lemma SameKeysUnique(a: Users, b: Users)
    requires SameKeys(a, b) && UniqueKeys(a)
    ensures UniqueKeys(b)
  {
  }

  /** Looking a row up by id finds the same position in both versions. */
  lemma {:induction false} SameKeysSameIds(a: Users, b: Users, id: int)
    requires SameKeys(a, b)
    ensures FirstWhere(a, IdIs(id)) == FirstWhere(b, IdIs(id))
  {
    if |a| > 0 {
      assert SameKeys(a[1..], b[1..]);
      SameKeysSameIds(a[1..], b[1..], id);
    }
  }

  lemma SameKeysPreserve(a: Users, b: Users, next: nat)
    requires SameKeys(a, b) && EmailsLower(a) && UniqueKeys(a) && WellFormed(a, next)
    ensures EmailsLower(b) && UniqueKeys(b) && WellFormed(b, next)
  {
    SameKeysUnique(a, b);
  }

  function EmailIs(email: string): Row<Account> -> bool {
    (u: Row<Account>) => u.data.email == email
  }

  function NidnIs(nidn: string): Row<Account> -> bool {
    (u: Row<Account>) => u.data.nidn == Some(nidn)
  }

  function NimIs(nim: string): Row<Account> -> bool {
    (u: Row<Account>) => u.data.nim == Some(nim)
  }

  function IdIs(id: int): Row<Account> -> bool {
    (u: Row<Account>) => u.id == id
  }

  // ---------------------------------------------------------------------------
  // The email pattern

  predicate PlainChar(c: char) {
    !IsSpace(c) && c != '@'
  }

  predicate Plain(s: string) {
    forall k :: 0 <= k < |s| ==> PlainChar(s[k])
  }

  /** `/^[^\s@]+@[^\s@]+\.[^\s@]+$/.test(s)`: one `@` with at least one character before it,
      then a `.` with at least one character on each side, and no white space anywhere. */
  predicate EmailPattern(s: string) {
    exists at, dot | 0 < at < |s| && at + 1 < dot < |s| - 1 ::
      && s[at] == '@' && s[dot] == '.'
      && forall k :: 0 <= k < |s| && k != at ==> PlainChar(s[k])
  }

  /** Every `a@b.c` with non-empty plain parts matches. */
  lemma EmailPatternIntro(a: string, b: string, c: string)
    requires |a| > 0 && |b| > 0 && |c| > 0 && Plain(a) && Plain(b) && Plain(c)
    ensures EmailPattern(a + "@" + b + "." + c)
  {
    var s := a + "@" + b + "." + c;
    var at, dot := |a|, |a| + 1 + |b|;
    forall k | 0 <= k < |s| && k != at ensures PlainChar(s[k]) {
      if k < at {
        assert s[k] == a[k];
      } else if k < dot {
        assert s[k] == b[k - at - 1];
      } else if k > dot {
        assert s[k] == c[k - dot - 1];
      }
    }
    assert s[at] == '@' && s[dot] == '.';
  }

  /** Conversely every match splits as `a@b.c`, with `b.c` possibly holding more dots. */
  lemma EmailPatternElim(s: string) returns (a: string, b: string, c: string)
    requires EmailPattern(s)
    ensures s == a + "@" + b + "." + c
    ensures |a| > 0 && |b| > 0 && |c| > 0 && Plain(a) && '@' !in b && '@' !in c
  {
    var at, dot :| 0 < at < |s| && at + 1 < dot < |s| - 1 && s[at] == '@' && s[dot] == '.'
      && forall k :: 0 <= k < |s| && k != at ==> PlainChar(s[k]);
    a, b, c := s[..at], s[at + 1..dot], s[dot + 1..];
    SplitAtTwo(s, at, dot);
    forall k | 0 <= k < |b| ensures b[k] != '@' {
      assert b[k] == s[at + 1 + k];
    }
    forall k | 0 <= k < |c| ensures c[k] != '@' {
      assert c[k] == s[dot + 1 + k];
    }
  }

  /** Cutting out an `@` at `at` and a `.` at `dot` leaves the three pieces around them. */
  lemma SplitAtTwo(s: string, at: int, dot: int)
    requires 0 <= at < dot < |s| && s[at] == '@' && s[dot] == '.'
    ensures s == s[..at] + "@" + s[at + 1..dot] + "." + s[dot + 1..]
  {
    assert s[..at + 1] == s[..at] + "@";
    assert s[..dot] == s[..at + 1] + s[at + 1..dot];
    assert s[..dot + 1] == s[..dot] + ".";
    assert s == s[..dot + 1] + s[dot + 1..];
  }

  /** A matching string holds no white space. */
  lemma EmailPatternNoSpace(s: string)
    requires EmailPattern(s)
    ensures NoSpace(s)
  {
    var at, dot :| 0 < at < |s| && at + 1 < dot < |s| - 1 && s[at] == '@' && s[dot] == '.'
      && forall k :: 0 <= k < |s| && k != at ==> PlainChar(s[k]);
  }

  lemma ToLowerIdempotent(s: string)
    ensures ToLower(ToLower(s)) == ToLower(s)
  {
  }

  /** For an email that matches the pattern, lower-casing then trimming (the stored value)
      equals lower-casing alone (the value the duplicate check looks up). */
  lemma NormalisedEmail(email: string)
    requires EmailPattern(email)
    ensures Trim(ToLower(email)) == ToLower(email)
    ensures ToLower(Trim(ToLower(email))) == Trim(ToLower(email))
  {
    EmailPatternNoSpace(email);
    ToLowerNoSpace(email);
    TrimNoSpace(ToLower(email));
    ToLowerIdempotent(email);
  }

  // ---------------------------------------------------------------------------
  // Registration

  /** The JSON body of `POST /register`; an absent field is `None`. */
  datatype RegisterPayload = RegisterPayload(
    firstName: Option<string>,
    lastName: Option<string>,
    email: Option<string>,
    status: Option<string>,
    password: Option<string>,
    nidn: Option<string>,
    nim: Option<string>)

  datatype RegisterResult = Created(user: Row<Account>) | Rejected(reply: Reply)

  const MissingFields: string := "Missing required fields: firstName, lastName, email, status, password"
  const BadEmail: string := "Invalid email format"
  const BadStatus: string := "Invalid status. Must be: dosen, mahasiswa, or staff"
  const NidnRequired: string := "NIDN is required for dosen"
  const NimRequired: string := "NIM is required for mahasiswa"
  const EmailTaken: string := "Email already registered"
  const NidnTaken: string := "NIDN already registered"
  const NimTaken: string := "NIM already registered"

  predicate HasRequiredFields(p: RegisterPayload) {
    Truthy(p.firstName) && Truthy(p.lastName) && Truthy(p.email) && Truthy(p.status) && Truthy(p.password)
  }

  /** The 400 checks, in the order the handler runs them; `None` when the payload passes all. */
  function FieldRejection(p: RegisterPayload): (error: Option<string>)
    ensures error.None? ==> HasRequiredFields(p) && EmailPattern(p.email.value) && p.status.value in Statuses
    ensures error.None? && p.status.value == "dosen" ==> Truthy(p.nidn)
    ensures error.None? && p.status.value == "mahasiswa" ==> Truthy(p.nim)
  {
    if !HasRequiredFields(p) then Some(MissingFields)
    else if !EmailPattern(p.email.value) then Some(BadEmail)
    else if p.status.value !in Statuses then Some(BadStatus)
    else if p.status.value == "dosen" && !Truthy(p.nidn) then Some(NidnRequired)
    else if p.status.value == "mahasiswa" && !Truthy(p.nim) then Some(NimRequired)
    else None
  }

  /** `nidnValue`: the NIDN is kept for a dosen only. */
  function NidnValue(p: RegisterPayload): Option<string>
    requires p.status.Some?
  {
    if p.status.value == "dosen" then p.nidn else None
  }

  /** `nimValue`: the NIM is kept for a mahasiswa only. */
  function NimValue(p: RegisterPayload): Option<string>
    requires p.status.Some?
  {
    if p.status.value == "mahasiswa" then p.nim else None
  }

  /** The 409 checks, in order: the lower-cased email, then the NIDN, then the NIM. */
  function Conflict(users: Users, p: RegisterPayload): (c: Option<string>)
    requires FieldRejection(p).None?
    ensures c.None? <==>
      && (forall i :: 0 <= i < |users| ==> users[i].data.email != ToLower(p.email.value))
      && (Truthy(NidnValue(p)) ==> forall i :: 0 <= i < |users| ==> users[i].data.nidn != NidnValue(p))
      && (Truthy(NimValue(p)) ==> forall i :: 0 <= i < |users| ==> users[i].data.nim != NimValue(p))
    ensures c.Some? ==> c.value in [EmailTaken, NidnTaken, NimTaken]
  {
    if FirstWhere(users, EmailIs(ToLower(p.email.value))).Some? then Some(EmailTaken)
    else if Truthy(NidnValue(p)) && FirstWhere(users, NidnIs(NidnValue(p).value)).Some? then Some(NidnTaken)
    else if Truthy(NimValue(p)) && FirstWhere(users, NimIs(NimValue(p).value)).Some? then Some(NimTaken)
    else None
  }

  /** The row the handler inserts for an accepted payload. */
  function NewAccount(p: RegisterPayload): (a: Account)
    requires FieldRejection(p).None?
    ensures a.role == p.status.value && a.role in Statuses && a.profilePicture.None?
    ensures a.nidn.Some? <==> a.role == "dosen"
    ensures a.nim.Some? <==> a.role == "mahasiswa"
  {
    Account(Trim(p.firstName.value), Trim(p.lastName.value), Trim(ToLower(p.email.value)),
            Hash(p.password.value), p.status.value, NidnValue(p), NimValue(p), None)
  }

  /** What `registerUser` does with a payload against a given table. */
  function Registration(users: Users, nextId: nat, p: RegisterPayload): (r: RegisterResult)
    ensures r.Rejected? ==> r.reply.code == 400 || r.reply.code == 409
    ensures r.Created? ==> r.user.id == nextId
  {
    match FieldRejection(p)
    case Some(error) => Rejected(Reply(400, error))
    case None =>
      match Conflict(users, p)
      case Some(error) => Rejected(Reply(409, error))
      case None => Created(Row(nextId, NewAccount(p)))
  }

  /** The converse of the field checks: a payload with every field, a matching email, a listed
      status and the identity number its status needs is not refused with 400. */
  lemma FieldChecksPass(p: RegisterPayload)
    requires HasRequiredFields(p) && EmailPattern(p.email.value) && p.status.value in Statuses
    requires p.status.value == "dosen" ==> Truthy(p.nidn)
    requires p.status.value == "mahasiswa" ==> Truthy(p.nim)
    ensures FieldRejection(p).None?
  {
  }

  /** With the lower-cased email free, a dosen whose NIDN an account already holds is refused
      with 409 for the NIDN. */
  lemma NidnConflict(users: Users, nextId: nat, p: RegisterPayload, i: nat)
    requires FieldRejection(p).None? && p.status.value == "dosen"
    requires forall j :: 0 <= j < |users| ==> users[j].data.email != ToLower(p.email.value)
    requires i < |users| && users[i].data.nidn == p.nidn
    ensures Registration(users, nextId, p) == Rejected(Reply(409, NidnTaken))
  {
    assert !EmailIs(ToLower(p.email.value))(users[i]);
    assert NidnIs(p.nidn.value)(users[i]);
  }

  /** With the lower-cased email free, a mahasiswa whose NIM an account already holds is
      refused with 409 for the NIM. */
  lemma NimConflict(users: Users, nextId: nat, p: RegisterPayload, i: nat)
    requires FieldRejection(p).None? && p.status.value == "mahasiswa"
    requires forall j :: 0 <= j < |users| ==> users[j].data.email != ToLower(p.email.value)
    requires i < |users| && users[i].data.nim == p.nim
    ensures Registration(users, nextId, p) == Rejected(Reply(409, NimTaken))
  {
    assert NimIs(p.nim.value)(users[i]);
  }

  /** A payload that passes the field checks and whose email, NIDN and NIM no account holds is
      created, under the next id, as `NewAccount`. */
  lemma CreatedWhenFree(users: Users, nextId: nat, p: RegisterPayload)
    requires FieldRejection(p).None?
    requires forall j :: 0 <= j < |users| ==> users[j].data.email != ToLower(p.email.value)
    requires forall j :: 0 <= j < |users| ==> users[j].data.nidn != NidnValue(p) || NidnValue(p).None?
    requires forall j :: 0 <= j < |users| ==> users[j].data.nim != NimValue(p) || NimValue(p).None?
    ensures Registration(users, nextId, p) == Created(Row(nextId, NewAccount(p)))
  {
  }

  /** Every field rejection is a 400 whatever the table holds, so it precedes any uniqueness
      check; a missing field is reported before anything else. */
  lemma FieldChecksFirst(users: Users, nextId: nat, p: RegisterPayload)
    ensures FieldRejection(p).Some? ==> Registration(users, nextId, p) == Rejected(Reply(400, FieldRejection(p).value))
    ensures !HasRequiredFields(p) ==> Registration(users, nextId, p) == Rejected(Reply(400, MissingFields))
    ensures HasRequiredFields(p) && !EmailPattern(p.email.value) ==> Registration(users, nextId, p) == Rejected(Reply(400, BadEmail))
  {
  }

  /** A dosen without a NIDN and a mahasiswa without a NIM are refused with their own message;
      a staff account needs neither. */
  lemma StatusSpecificFields(users: Users, nextId: nat, p: RegisterPayload)
    requires HasRequiredFields(p) && EmailPattern(p.email.value)
    ensures p.status.value == "dosen" && !Truthy(p.nidn) ==> Registration(users, nextId, p) == Rejected(Reply(400, NidnRequired))
    ensures p.status.value == "mahasiswa" && !Truthy(p.nim) ==> Registration(users, nextId, p) == Rejected(Reply(400, NimRequired))
    ensures p.status.value == "staff" ==> FieldRejection(p).None?
  {
  }

  /** Among the uniqueness checks a duplicate email is reported first, whether or not the
      NIDN or NIM are also taken; the lookup uses the lower-cased email. */
  lemma EmailConflictFirst(users: Users, nextId: nat, p: RegisterPayload, i: nat)
    requires FieldRejection(p).None?
    requires i < |users| && users[i].data.email == ToLower(p.email.value)
    ensures Registration(users, nextId, p) == Rejected(Reply(409, EmailTaken))
  {
  }

  /** An accepted payload passed every 400 check and met no conflict, and its row is the
      normalised account below. */
  lemma CreatedIsNewAccount(users: Users, nextId: nat, p: RegisterPayload)
    requires Registration(users, nextId, p).Created?
    ensures FieldRejection(p).None? && Conflict(users, p).None?
    ensures Registration(users, nextId, p).user == Row(nextId, NewAccount(p))
  {
  }

  /** The inserted row: trimmed names, the lower-cased email, the status as role, a NIDN only
      for a dosen and a NIM only for a mahasiswa, the password's digest and no picture. */
  lemma NewAccountShape(p: RegisterPayload)
    requires FieldRejection(p).None?
    ensures var a := NewAccount(p);
      && a.firstName == Trim(p.firstName.value) && a.lastName == Trim(p.lastName.value)
      && a.email == ToLower(p.email.value)
      && a.role == p.status.value && a.role in Statuses
      && (a.nidn.Some? <==> a.role == "dosen") && (a.role == "dosen" ==> a.nidn == p.nidn)
      && (a.nim.Some? <==> a.role == "mahasiswa") && (a.role == "mahasiswa" ==> a.nim == p.nim)
      && Matches(p.password.value, a.password)
      && a.profilePicture.None?
  {
    var a := NewAccount(p);
    StatusesDistinct();
    assert (a.nidn.Some? <==> a.role == "dosen") && (a.nim.Some? <==> a.role == "mahasiswa");
    NormalisedEmail(p.email.value);
  }

  /** The backend only tests names for presence: a name of spaces passes and is stored empty. */
  lemma BlankNameStoredEmpty(p: RegisterPayload)
    requires FieldRejection(p).None? && p.firstName == Some(" ")
    ensures NewAccount(p).firstName == ""
  {
  }

  /** Registration keeps stored emails lower-case and keeps emails, NIDNs and NIMs unique. */
  lemma RegistrationKeepsKeys(users: Users, nextId: nat, p: RegisterPayload)
    requires EmailsLower(users) && UniqueKeys(users)
    requires Registration(users, nextId, p).Created?
    ensures var users' := users + [Registration(users, nextId, p).user];
      EmailsLower(users') && UniqueKeys(users')
  {
    CreatedIsNewAccount(users, nextId, p);
    NewAccountKeepsKeys(users, nextId, p);
  }

  lemma NewAccountKeepsKeys(users: Users, nextId: nat, p: RegisterPayload)
    requires EmailsLower(users) && UniqueKeys(users)
    requires FieldRejection(p).None? && Conflict(users, p).None?
    ensures var users' := users + [Row(nextId, NewAccount(p))];
      EmailsLower(users') && UniqueKeys(users')
  {
    var a := NewAccount(p);
    assert a.email == ToLower(p.email.value) && IsLower(a.email) by {
      NormalisedEmail(p.email.value);
      IsLowerToLower(p.email.value);
    }
    assert a.nidn.Some? ==> Truthy(NidnValue(p)) && a.nidn == NidnValue(p);
    assert a.nim.Some? ==> Truthy(NimValue(p)) && a.nim == NimValue(p);
    NoConflictFacts(users, p);
    AppendKeepsKeys(users, Row(nextId, a));
  }

  /** What passing the 409 checks says about the table. */
  lemma NoConflictFacts(users: Users, p: RegisterPayload)
    requires FieldRejection(p).None? && Conflict(users, p).None?
    ensures forall i :: 0 <= i < |users| ==> users[i].data.email != ToLower(p.email.value)
    ensures Truthy(NidnValue(p)) ==> forall i :: 0 <= i < |users| ==> users[i].data.nidn != NidnValue(p)
    ensures Truthy(NimValue(p)) ==> forall i :: 0 <= i < |users| ==> users[i].data.nim != NimValue(p)
  {
    NoMatchFacts(users, EmailIs(ToLower(p.email.value)));
    if Truthy(NidnValue(p)) {
      NoMatchFacts(users, NidnIs(NidnValue(p).value));
    }
    if Truthy(NimValue(p)) {
      NoMatchFacts(users, NimIs(NimValue(p).value));
    }
  }

  lemma NoMatchFacts(users: Users, f: Row<Account> -> bool)
    requires FirstWhere(users, f).None?
    ensures forall i :: 0 <= i < |users| ==> !f(users[i])
  {
  }

  /** Appending a row whose email is lower-case and new, and whose NIDN and NIM (when set) are
      new, keeps the table's keys unique. */
  lemma AppendKeepsKeys(users: Users, row: Row<Account>)
    requires EmailsLower(users) && UniqueKeys(users)
    requires IsLower(row.data.email)
    requires forall i :: 0 <= i < |users| ==> users[i].data.email != row.data.email
    requires row.data.nidn.Some? ==> forall i :: 0 <= i < |users| ==> users[i].data.nidn != row.data.nidn
    requires row.data.nim.Some? ==> forall i :: 0 <= i < |users| ==> users[i].data.nim != row.data.nim
    ensures EmailsLower(users + [row]) && UniqueKeys(users + [row])
  {
  }

  // ---------------------------------------------------------------------------
  // Login and the role gate

  /** One row of `login_history`: who logged in, and when (milliseconds). */
  datatype LoginEntry = LoginEntry(userId: nat, loginTime: int)

  datatype LoginResult = LoggedIn(userId: nat, token: Jwt.Claims) | LoginRefused(reply: Reply)

  /** What `login` answers: the first account whose email equals the given one exactly,
      checked against the password, signed into a two-hour token. */
  function LoginOutcome(users: Users, email: string, password: string, nowMs: int): (r: LoginResult)
    ensures r.LoginRefused? ==> r.reply.code == 404 || r.reply.code == 401
  {
    match FirstWhere(users, EmailIs(email))
    case None => LoginRefused(Reply(404, UserNotFound))
    case Some(k) =>
      var u := users[k];
      if !Matches(password, u.data.password) then LoginRefused(Reply(401, IncorrectPassword))
      else LoggedIn(u.id, Jwt.Issue(u.id, u.data.firstName, u.data.lastName, u.data.role, nowMs))
  }

  /** An email no account has exactly is refused with 404. */
  lemma LoginUnknownEmail(users: Users, email: string, password: string, nowMs: int)
    requires forall i :: 0 <= i < |users| ==> users[i].data.email != email
    ensures LoginOutcome(users, email, password, nowMs) == LoginRefused(Reply(404, UserNotFound))
  {
    assert FirstWhere(users, EmailIs(email)).None? by {
      forall j | 0 <= j < |users| ensures !EmailIs(email)(users[j]) {
      }
    }
  }

  /** Under exact string comparison of emails (the model's reading of `WHERE email = ?`, which
      ignores the database's collation), and because registration stores emails lower-cased,
      an email typed with a capital letter never reaches an account. */
  lemma LoginIsCaseSensitive(users: Users, email: string, password: string, nowMs: int)
    requires EmailsLower(users) && ToLower(email) != email
    ensures LoginOutcome(users, email, password, nowMs) == LoginRefused(Reply(404, UserNotFound))
  {
    IsLowerToLower(email);
    LoginUnknownEmail(users, email, password, nowMs);
  }

  /** With unique emails, the account found is the one holding that email: a wrong password
      gives 401, the right one a token carrying that account's id, names and role. */
  lemma LoginChecksTheAccount(users: Users, i: nat, password: string, nowMs: int)
    requires UniqueKeys(users) && i < |users|
    ensures var u := users[i];
      && (!Matches(password, u.data.password) ==>
            LoginOutcome(users, u.data.email, password, nowMs) == LoginRefused(Reply(401, IncorrectPassword)))
      && (Matches(password, u.data.password) ==>
            LoginOutcome(users, u.data.email, password, nowMs)
              == LoggedIn(u.id, Jwt.Issue(u.id, u.data.firstName, u.data.lastName, u.data.role, nowMs)))
  {
    var e := users[i].data.email;
    var k := FirstWhere(users, EmailIs(e));
    assert EmailIs(e)(users[i]);
    assert k == Some(i);
  }

  datatype RoleGate = Continue | Forbidden(reply: Reply)

  /** `requireRole(allowedRoles)`: the request goes on iff the credential role is listed. */
  function RequireRole(allowed: seq<string>, role: Option<string>): (g: RoleGate)
    ensures g.Continue? <==> role.Some? && role.value in allowed
    ensures g.Forbidden? ==> g.reply == Reply(403, AccessDenied)
  {
    if role.Some? && role.value in allowed then Continue else Forbidden(Reply(403, AccessDenied))
  }

  // ---------------------------------------------------------------------------
  // The one-time-password ledger

  datatype OtpRecord = OtpRecord(code: string, expires: int)

  type Ledger = map<string, OtpRecord>

  /** Five minutes, in milliseconds. */
  const OtpLifetimeMs: int := 5 * 60 * 1000

  /** `Math.floor(100000 + Math.random() * 900000).toString()` for a random draw `r` in [0, 1). */
  function OtpCode(r: real): (code: string)
    requires 0.0 <= r < 1.0
    ensures |code| == 6 && AllDigits(code)
    ensures 100000 <= ParseDecimal(code) <= 999999
  {
    var n := (100000.0 + r * 900000.0).Floor;
    assert 100000 <= n < 1000000;
    assert Pow10(5) == 100000 && Pow10(6) == 1000000;
    DecimalStringLength(n, 6);
    ParseDecimalString(n);
    DecimalString(n)
  }

  /** The test `verifyOTP` applies: a record exists, its code is strictly equal to the one
      given, and the clock has not passed its expiry. */
  predicate OtpAccepts(ledger: Ledger, email: string, code: string, nowMs: int) {
    email in ledger && ledger[email].code == code && !(nowMs > ledger[email].expires)
  }

  /** The two ways the ledger changes: `forgotPassword` issues, `resetPassword` deletes. */
  datatype LedgerEvent = Issued(email: string, code: string, atMs: int) | Consumed(email: string)

  function EventEmail(e: LedgerEvent): string {
    match e
    case Issued(email, _, _) => email
    case Consumed(email) => email
  }

  /** The ledger after one event: an issue overwrites the email's record, a reset removes it;
      other emails' records are untouched. */
  function Apply(ledger: Ledger, e: LedgerEvent): (l: Ledger)
    ensures forall x :: x != EventEmail(e) ==> (x in l <==> x in ledger) && (x in l ==> l[x] == ledger[x])
    ensures e.Issued? ==> e.email in l && l[e.email] == OtpRecord(e.code, e.atMs + OtpLifetimeMs)
    ensures e.Consumed? ==> e.email !in l
  {
    match e
    case Issued(email, code, atMs) => ledger[email := OtpRecord(code, atMs + OtpLifetimeMs)]
    case Consumed(email) => ledger - {email}
  }

  /** The ledger a run of events builds from the empty map the server starts with. */
  function Replay(events: seq<LedgerEvent>): Ledger {
    if |events| == 0 then map[] else Apply(Replay(events[..|events| - 1]), events[|events| - 1])
  }

  /** The most recent event about `email`, if any. */
  function LastFor(events: seq<LedgerEvent>, email: string): (r: Option<LedgerEvent>)
    ensures r.Some? ==> EventEmail(r.value) == email
  {
    if |events| == 0 then None
    else if EventEmail(events[|events| - 1]) == email then Some(events[|events| - 1])
    else LastFor(events[..|events| - 1], email)
  }

  /** After any history of issues and resets, a code is accepted for an email exactly when the
      latest event about that email issued that very code, less than five minutes ago: an
      overwritten code, a consumed one and an expired one are all refused. */
  lemma {:induction false} ReplayAccepts(events: seq<LedgerEvent>, email: string, code: string, nowMs: int)
    ensures OtpAccepts(Replay(events), email, code, nowMs) <==>
      (match LastFor(events, email)
       case Some(Issued(_, c, t)) => c == code && nowMs <= t + OtpLifetimeMs
       case _ => false)
  {
    if |events| > 0 {
      ReplayAccepts(events[..|events| - 1], email, code, nowMs);
    }
  }

  // ---------------------------------------------------------------------------
  // Profile update

  /** The `photo` part of the multipart body as formidable reports it. */
  datatype Upload = Upload(originalFilename: string, mimetype: Option<string>)

  const AllowedExtensions: seq<string> := ["jpg", "jpeg", "png", "gif", "webp"]
  const AllowedTypes: seq<string> := ["image/jpeg", "image/jpg", "image/png", "image/gif", "image/webp"]
  const BadExtension: string := "Format file tidak didukung. Gunakan JPEG, PNG, GIF, atau WebP"
  const BadType: string := "Tipe file tidak didukung"

  /** The index of the last occurrence of `c` in `s`. */
  function LastIndex(s: string, c: char): (k: Option<nat>)
    ensures k.Some? ==> k.value < |s| && s[k.value] == c && c !in s[k.value + 1..]
    ensures k.None? ==> c !in s
  {
    if |s| == 0 then None
    else if s[|s| - 1] == c then Some(|s| - 1)
    else
      var k := LastIndex(s[..|s| - 1], c);
      assert s == s[..|s| - 1] + [s[|s| - 1]];
      if k.Some? then assert s[k.value + 1..] == s[..|s| - 1][k.value + 1..] + [s[|s| - 1]]; k
      else k
  }

  /** `path.extname` of a file name without `/`: from the last `.` to the end, except that a
      name with no `.`, a name whose only `.` leads it, and `..` have no extension. */
  function ExtName(name: string): (ext: string)
    ensures ext == "" || (ext[0] == '.' && '.' !in ext[1..] && |ext| < |name| && name == name[..|name| - |ext|] + ext)
  {
    match LastIndex(name, '.')
    case None => ""
    case Some(k) =>
      if k == 0 || name == ".." then "" else
      assert name == name[..k] + name[k..];
      name[k..]
  }

  /** `path.extname(name).toLowerCase().substr(1)` */
  function Extension(name: string): string {
    var e := ToLower(ExtName(name));
    if |e| == 0 then "" else e[1..]
  }

  /** The checks of `handleFileUpload`, in order: the extension, then the MIME type when
      one was reported. */
  function UploadRejection(file: Upload): (error: Option<Reply>)
    ensures error.None? <==> Extension(file.originalFilename) in AllowedExtensions
                             && (!Truthy(file.mimetype) || file.mimetype.value in AllowedTypes)
    ensures error.Some? ==> error.value.code == 400
  {
    if Extension(file.originalFilename) !in AllowedExtensions then Some(Reply(400, BadExtension))
    else if Truthy(file.mimetype) && file.mimetype.value !in AllowedTypes then Some(Reply(400, BadType))
    else None
  }

  /** The empty extension is not among the allowed ones. */
  lemma NoEmptyExtension()
    ensures "" !in AllowedExtensions
  {
    assert |AllowedExtensions[0]| == 3 && |AllowedExtensions[1]| == 4 && |AllowedExtensions[2]| == 3;
    assert |AllowedExtensions[3]| == 3 && |AllowedExtensions[4]| == 4;
  }

  /** An accepted upload's name ends in `.` and one of the allowed extensions, in any letter
      case, and that final `.` is not the name's first character. */
  lemma AcceptedUploadName(file: Upload)
    requires UploadRejection(file).None?
    ensures Extension(file.originalFilename) in AllowedExtensions
    ensures exists k | 0 < k < |file.originalFilename| ::
      file.originalFilename[k] == '.' && ToLower(file.originalFilename[k + 1..]) == Extension(file.originalFilename)
  {
    NoEmptyExtension();
    var k := ExtensionDot(file.originalFilename);
  }

  /** A non-empty extension is what follows a `.` that is not the name's first character. */
  lemma ExtensionDot(name: string) returns (k: nat)
    requires Extension(name) != ""
    ensures 0 < k < |name| && name[k] == '.' && ToLower(name[k + 1..]) == Extension(name)
  {
    var ext := ExtName(name);
    k := |name| - |ext|;
    assert name[k..] == ext;
    ToLowerDrop(ext, 1);
    assert ext[1..] == name[k + 1..];
  }

  /** The stored file name: the clock in milliseconds, `_`, and the name as uploaded. */
  function StoredFilename(nowMs: int, originalFilename: string): string {
    IntString(nowMs) + "_" + originalFilename
  }

  /** One row as `updateUserData` leaves it: a row with the id gets the new names, and the new
      picture when one was stored; any other row is unchanged. */
  function Rewritten(u: Row<Account>, id: int, first: string, last: string, picture: Option<string>): Row<Account> {
    if u.id != id then u
    else Row(u.id, u.data.(firstName := first, lastName := last,
                           profilePicture := if picture.Some? then picture else u.data.profilePicture))
  }

  /** `UPDATE users SET first_name = ?, last_name = ? [, profile_picture = ?] WHERE id = ?` */
  function UpdateNames(users: Users, id: int, first: string, last: string, picture: Option<string>): (r: Users)
    ensures |r| == |users|
    ensures forall i :: 0 <= i < |users| ==> r[i] == Rewritten(users[i], id, first, last, picture)
  {
    if |users| == 0 then []
    else [Rewritten(users[0], id, first, last, picture)] + UpdateNames(users[1..], id, first, last, picture)
  }

  /** The update touches neither ids, emails, NIDNs nor NIMs. */
  lemma UpdateNamesSameKeys(users: Users, id: int, first: string, last: string, picture: Option<string>)
    ensures SameKeys(users, UpdateNames(users, id, first, last, picture))
  {
  }

  /** The picture column after an accepted update: the new file, or no change. */
  function NewPicture(photo: Option<Upload>, nowMs: int): (picture: Option<string>)
    ensures picture.Some? <==> photo.Some?
  {
    if photo.Some? then Some(StoredFilename(nowMs, photo.value.originalFilename)) else None
  }

  /** The row `updateUserData` rewrote carries the new names and, when given, the new picture. */
  lemma UpdatedRow(users: Users, id: int, first: string, last: string, picture: Option<string>, k: nat)
    requires k < |users| && users[k].id == id
    ensures var r := UpdateNames(users, id, first, last, picture)[k];
      && r.id == id && r.data.firstName == first && r.data.lastName == last
      && (picture.Some? ==> r.data.profilePicture == picture)
  {
  }

  const UploadsUrl: string := "http://localhost:5000/uploads/"

  datatype ProfileReply =
    | ProfileUpdated(user: Row<Account>, pictureUrl: Option<string>)
    | ProfileFailed(reply: Reply)

  // ---------------------------------------------------------------------------
  // Password update

  /** `UPDATE users SET password = ? WHERE email = ?`: exactly the rows with that email get the
      new digest. */
  function SetPassword(users: Users, email: string, digest: Digest): (r: Users)
    ensures |r| == |users|
    ensures forall i :: 0 <= i < |users| ==>
      r[i] == (if users[i].data.email == email then Row(users[i].id, users[i].data.(password := digest)) else users[i])
  {
    if |users| == 0 then []
    else
      var u := users[0];
      [if u.data.email == email then Row(u.id, u.data.(password := digest)) else u]
        + SetPassword(users[1..], email, digest)
  }

  /** The password update touches neither ids, emails, NIDNs nor NIMs. */
  lemma SetPasswordSameKeys(users: Users, email: string, digest: Digest)
    ensures SameKeys(users, SetPassword(users, email, digest))
  {
  }

  /** After a reset, logging in with the new password succeeds for an account with that email,
      and the previous password, if different, is refused. */
  lemma LoginAfterReset(users: Users, i: nat, password: string, previous: string, nowMs: int)
    requires UniqueKeys(users) && i < |users|
    ensures var e := users[i].data.email;
      var users' := SetPassword(users, e, Hash(password));
      && LoginOutcome(users', e, password, nowMs).LoggedIn?
      && (previous != password ==> LoginOutcome(users', e, previous, nowMs).LoginRefused?)
  {
    var e := users[i].data.email;
    var users' := SetPassword(users, e, Hash(password));
    SetPasswordSameKeys(users, e, Hash(password));
    SameKeysUnique(users, users');
    assert users'[i].data.email == e && users'[i].data.password == Hash(password);
    LoginChecksTheAccount(users', i, password, nowMs);
    LoginChecksTheAccount(users', i, previous, nowMs);
  }

  // ---------------------------------------------------------------------------
  // Login history

  /** One entry of the `getLoginHistory` answer (its id is the login_history row's). */
  datatype LoginView = LoginView(userId: nat, name: string, status: string, photo: string, loginTime: int)

  const DefaultAvatar: string := "http://localhost:5000/uploads/default-avatar.jpg"

  function PhotoUrl(picture: Option<string>): string {
    if Truthy(picture) then UploadsUrl + picture.value else DefaultAvatar
  }

  /** `v` is what the join makes of login entry `h` for an existing user: the entry's id and
      time, the user's id, full name, status and photo URL. */
  ghost predicate JoinedFrom(users: Users, h: Row<LoginEntry>, v: Row<LoginView>) {
    && h.id == v.id
    && exists k :: 0 <= k < |users| && users[k].id == h.data.userId
         && v.data == LoginView(users[k].id, users[k].data.firstName + " " + users[k].data.lastName,
                                users[k].data.role, PhotoUrl(users[k].data.profilePicture),
                                h.data.loginTime)
  }

  /** `login_history JOIN users ON user_id = id`, mapped to the answer's shape. Entries whose
      user no longer exists are dropped. */
  function JoinLogins(users: Users, history: seq<Row<LoginEntry>>): (r: seq<Row<LoginView>>)
    ensures |r| <= |history|
    ensures forall j :: 0 <= j < |r| ==> exists i :: 0 <= i < |history| && JoinedFrom(users, history[i], r[j])
  {
    if |history| == 0 then []
    else
      var h := history[0];
      var rest := JoinLogins(users, history[1..]);
      assert forall j :: 0 <= j < |rest| ==> exists i :: 0 <= i < |history| && JoinedFrom(users, history[i], rest[j]) by {
        forall j | 0 <= j < |rest| ensures exists i :: 0 <= i < |history| && JoinedFrom(users, history[i], rest[j]) {
          var i :| 0 <= i < |history[1..]| && JoinedFrom(users, history[1..][i], rest[j]);
          assert history[i + 1] == history[1..][i];
        }
      }
      match FirstWhere(users, IdIs(h.data.userId))
      case None => rest
      case Some(k) =>
        var u := users[k];
        var v := Row(h.id, LoginView(u.id, u.data.firstName + " " + u.data.lastName, u.data.role,
                                     PhotoUrl(u.data.profilePicture), h.data.loginTime));
        assert JoinedFrom(users, history[0], v);
        [v] + rest
  }

  /** Whether the join finds an account for login entry `h`. */
  predicate Joinable(users: Users, h: Row<LoginEntry>) {
    FirstWhere(users, IdIs(h.data.userId)).Some?
  }

  /** The number of login rows whose user still exists. */
  function JoinableCount(users: Users, history: seq<Row<LoginEntry>>): nat {
    if |history| == 0 then 0
    else (if Joinable(users, history[0]) then 1 else 0) + JoinableCount(users, history[1..])
  }

  /** The join is complete: every login row whose user exists yields an entry made from it,
      and the answer holds exactly as many entries as there are such rows. */
  lemma {:induction false} JoinLoginsComplete(users: Users, history: seq<Row<LoginEntry>>)
    ensures |JoinLogins(users, history)| == JoinableCount(users, history)
    ensures forall i :: 0 <= i < |history| && Joinable(users, history[i]) ==>
      exists j :: 0 <= j < |JoinLogins(users, history)| && JoinedFrom(users, history[i], JoinLogins(users, history)[j])
  {
    if |history| > 0 {
      var r := JoinLogins(users, history);
      var rest := JoinLogins(users, history[1..]);
      JoinLoginsComplete(users, history[1..]);
      var off := if Joinable(users, history[0]) then 1 else 0;
      JoinLoginsStep(users, history);
      forall i | 0 <= i < |history| && Joinable(users, history[i])
        ensures exists j :: 0 <= j < |r| && JoinedFrom(users, history[i], r[j])
      {
        if i > 0 {
          assert history[i] == history[1..][i - 1];
          var j :| 0 <= j < |rest| && JoinedFrom(users, history[1..][i - 1], rest[j]);
          assert r[j + off] == rest[j];
        }
      }
    }
  }

  /** One step of the join: a joinable head contributes one entry made from it in front of the
      join of the rest, any other head contributes nothing. */
  lemma JoinLoginsStep(users: Users, history: seq<Row<LoginEntry>>)
    requires |history| > 0
    ensures var r := JoinLogins(users, history);
      var off := if Joinable(users, history[0]) then 1 else 0;
      && |r| == off + |JoinLogins(users, history[1..])|
      && r[off..] == JoinLogins(users, history[1..])
      && (off == 1 ==> JoinedFrom(users, history[0], r[0]))
  {
    if Joinable(users, history[0]) {
      var k := FirstWhere(users, IdIs(history[0].data.userId)).value;
      assert users[k].id == history[0].data.userId;
    }
  }

  function LoginTimeOf(r: Row<LoginView>): int {
    r.data.loginTime
  }

  /** The 400 checks of `registerUser`, one after the other, collecting `nidnValue` and
      `nimValue` on the way. */
  method CheckFields(p: RegisterPayload) returns (error: Option<string>, nidnValue: Option<string>, nimValue: Option<string>)
    ensures error == FieldRejection(p)
    ensures error.None? ==> nidnValue == NidnValue(p) && nimValue == NimValue(p)
  {
    nidnValue, nimValue := None, None;
    if !Truthy(p.firstName) || !Truthy(p.lastName) || !Truthy(p.email) || !Truthy(p.status) || !Truthy(p.password) {
      return Some(MissingFields), nidnValue, nimValue;
    }
    if !EmailPattern(p.email.value) {
      return Some(BadEmail), nidnValue, nimValue;
    }
    var status := p.status.value;
    if status !in Statuses {
      return Some(BadStatus), nidnValue, nimValue;
    }
    if status == "dosen" {
      if !Truthy(p.nidn) {
        return Some(NidnRequired), nidnValue, nimValue;
      }
      nidnValue := p.nidn;
    }
    if status == "mahasiswa" {
      if !Truthy(p.nim) {
        return Some(NimRequired), nidnValue, nimValue;
      }
      nimValue := p.nim;
    }
    StatusesDistinct();
    error := None;
  }

  // ---------------------------------------------------------------------------
  // The state the account handlers share

  class AccountStore {
    var users: Users
    var nextUserId: nat
    var loginHistory: seq<Row<LoginEntry>>
    var nextLoginId: nat
    /** `otpMap`, keyed by the email exactly as the client sent it. */
    var otps: Ledger

    ghost predicate Valid()
      reads this
    {
      && 1 <= nextUserId && WellFormed(users, nextUserId)
      && EmailsLower(users) && UniqueKeys(users)
      && 1 <= nextLoginId && WellFormed(loginHistory, nextLoginId)
    }

    constructor ()
      ensures Valid()
      ensures users == [] && loginHistory == [] && otps == map[]
    {
      users := [];
      nextUserId := 1;
      loginHistory := [];
      nextLoginId := 1;
      otps := map[];
    }

    /** The 409 lookups of `registerUser`, one `SELECT` after the other. */
    method FindConflict(p: RegisterPayload, nidnValue: Option<string>, nimValue: Option<string>)
      returns (error: Option<string>)
      requires FieldRejection(p).None?
      requires nidnValue == NidnValue(p) && nimValue == NimValue(p)
      ensures error == Conflict(users, p)
    {
      var existing := SelectFirst(users, EmailIs(ToLower(p.email.value)));
      if existing.Some? {
        return Some(EmailTaken);
      }
      if Truthy(nidnValue) {
        existing := SelectFirst(users, NidnIs(nidnValue.value));
        if existing.Some? {
          return Some(NidnTaken);
        }
      }
      if Truthy(nimValue) {
        existing := SelectFirst(users, NimIs(nimValue.value));
        if existing.Some? {
          return Some(NimTaken);
        }
      }
      error := None;
    }

    /** `registerUser`: the field checks, the uniqueness lookups, then a single insert. */
    method RegisterUser(p: RegisterPayload) returns (result: RegisterResult)
      requires Valid()
      modifies this
      ensures Valid()
      ensures result == Registration(old(users), old(nextUserId), p)
      ensures users == (if result.Created? then old(users) + [result.user] else old(users))
      ensures nextUserId == (if result.Created? then old(nextUserId) + 1 else old(nextUserId))
      ensures loginHistory == old(loginHistory) && nextLoginId == old(nextLoginId) && otps == old(otps)
    {
      var error, nidnValue, nimValue := CheckFields(p);
      if error.Some? {
        return Rejected(Reply(400, error.value));
      }
      error := FindConflict(p, nidnValue, nimValue);
      if error.Some? {
        return Rejected(Reply(409, error.value));
      }
      var account := Account(Trim(p.firstName.value), Trim(p.lastName.value), Trim(ToLower(p.email.value)),
                             Hash(p.password.value), p.status.value, nidnValue, nimValue, None);
      var row := Row(nextUserId, account);
      assert Registration(users, nextUserId, p) == Created(row);
      RegistrationKeepsKeys(users, nextUserId, p);
      InsertWellFormed(users, nextUserId, account);
      users := users + [row];
      nextUserId := nextUserId + 1;
      result := Created(row);
    }

    /** `login`: a refused attempt leaves every table alone; an accepted one appends exactly
        one login_history row for the account found. */
    method Login(email: string, password: string, nowMs: int) returns (result: LoginResult)
      requires Valid()
      modifies this
      ensures Valid()
      ensures result == LoginOutcome(old(users), email, password, nowMs)
      ensures result.LoggedIn? ==>
        loginHistory == old(loginHistory) + [Row(old(nextLoginId), LoginEntry(result.userId, nowMs))]
        && nextLoginId == old(nextLoginId) + 1
      ensures result.LoginRefused? ==> loginHistory == old(loginHistory) && nextLoginId == old(nextLoginId)
      ensures users == old(users) && nextUserId == old(nextUserId) && otps == old(otps)
    {
      var k := SelectFirst(users, EmailIs(email));
      if k.None? {
        return LoginRefused(Reply(404, UserNotFound));
      }
      var u := users[k.value];
      if !Matches(password, u.data.password) {
        return LoginRefused(Reply(401, IncorrectPassword));
      }
      var token := Jwt.Issue(u.id, u.data.firstName, u.data.lastName, u.data.role, nowMs);
      InsertWellFormed(loginHistory, nextLoginId, LoginEntry(u.id, nowMs));
      loginHistory := loginHistory + [Row(nextLoginId, LoginEntry(u.id, nowMs))];
      nextLoginId := nextLoginId + 1;
      result := LoggedIn(u.id, token);
    }

    /** `forgotPassword`: for a known email the ledger entry is overwritten with a fresh code
        before the mail goes out, so it stays even when sending fails (and the request then
        ends in a 500). An unknown email changes nothing. */
    method ForgotPassword(email: string, nowMs: int, random: real, mailDelivered: bool) returns (reply: Reply)
      requires Valid() && 0.0 <= random < 1.0
      modifies this
      ensures Valid()
      ensures FirstWhere(users, EmailIs(email)).None? ==> reply == Reply(404, EmailNotFound) && otps == old(otps)
      ensures FirstWhere(users, EmailIs(email)).Some? ==>
        && otps == Apply(old(otps), Issued(email, OtpCode(random), nowMs))
        && reply == (if mailDelivered then Reply(200, OtpSent)
                     else Reply(500, ServerError))
      ensures users == old(users) && nextUserId == old(nextUserId)
      ensures loginHistory == old(loginHistory) && nextLoginId == old(nextLoginId)
    {
      var k := SelectFirst(users, EmailIs(email));
      if k.None? {
        return Reply(404, EmailNotFound);
      }
      var code := OtpCode(random);
      otps := otps[email := OtpRecord(code, nowMs + OtpLifetimeMs)];
      if !mailDelivered {
        return Reply(500, ServerError);
      }
      reply := Reply(200, OtpSent);
    }

    /** `verifyOTP`: a read-only check of the ledger. */
    function VerifyOtp(email: string, code: string, nowMs: int): (reply: Reply)
      reads this
      ensures reply.code == 200 || reply == Reply(400, OtpInvalid)
      ensures reply.code == 200 <==> OtpAccepts(otps, email, code, nowMs)
    {
      if !OtpAccepts(otps, email, code, nowMs) then Reply(400, OtpInvalid)
      else Reply(200, OtpVerified)
    }

    /** `resetPassword`: without looking at the ledger, rewrites the digest of every account
        with that exact email (none, for an unknown email), drops that email's ledger entry and
        reports success. */
    method ResetPassword(email: string, password: string) returns (reply: Reply)
      requires Valid()
      modifies this
      ensures Valid()
      ensures reply == Reply(200, ResetDone)
      ensures users == SetPassword(old(users), email, Hash(password))
      ensures otps == Apply(old(otps), Consumed(email))
      ensures nextUserId == old(nextUserId) && loginHistory == old(loginHistory) && nextLoginId == old(nextLoginId)
    {
      var digest := Hash(password);
      var users' := SetPassword(users, email, digest);
      SetPasswordSameKeys(users, email, digest);
      SameKeysPreserve(users, users', nextUserId);
      users := users';
      otps := otps - {email};
      reply := Reply(200, ResetDone);
    }

    /** `updateProfile` for the account `userId` of the credentials. A missing `name` field
        ends in a 500 (a property read on `undefined`) and a refused photo in its 400, both
        before anything is written; otherwise the name is split and stored. */
    method UpdateProfile(userId: int, name: Option<string>, photo: Option<Upload>, nowMs: int)
      returns (reply: ProfileReply)
      requires Valid()
      modifies this
      ensures Valid()
      ensures name.None? ==>
        reply == ProfileFailed(Reply(500, NameFieldMissing)) && users == old(users)
      ensures name.Some? && photo.Some? && UploadRejection(photo.value).Some? ==>
        reply == ProfileFailed(UploadRejection(photo.value).value) && users == old(users)
      ensures name.Some? && (photo.None? || UploadRejection(photo.value).None?) ==>
        && users == UpdateNames(old(users), userId, SplitName(name.value).0, SplitName(name.value).1,
                                NewPicture(photo, nowMs))
        && (reply.ProfileUpdated? <==> FirstWhere(old(users), IdIs(userId)).Some?)
      ensures reply.ProfileUpdated? ==>
        && reply.user.id == userId && reply.user in users
        && (reply.pictureUrl.Some? <==> Truthy(reply.user.data.profilePicture))
      ensures nextUserId == old(nextUserId) && otps == old(otps)
      ensures loginHistory == old(loginHistory) && nextLoginId == old(nextLoginId)
    {
      if name.None? {
        return ProfileFailed(Reply(500, NameFieldMissing));
      }
      var picture: Option<string> := None;
      if photo.Some? {
        var error := UploadRejection(photo.value);
        if error.Some? {
          return ProfileFailed(error.value);
        }
        picture := Some(StoredFilename(nowMs, photo.value.originalFilename));
      }
      var parts := SplitName(name.value);
      reply := StoreProfile(userId, parts.0, parts.1, picture, nowMs);
    }

    /** `updateUserData` followed by the read-back of the row: a missing account ends in a 500
        (a property read on `undefined`). */
    method StoreProfile(userId: int, first: string, last: string, picture: Option<string>, nowMs: int)
      returns (reply: ProfileReply)
      requires Valid()
      modifies this
      ensures Valid()
      ensures users == UpdateNames(old(users), userId, first, last, picture)
      ensures reply.ProfileUpdated? <==> FirstWhere(old(users), IdIs(userId)).Some?
      ensures reply.ProfileFailed? ==>
        reply.reply == Reply(500, ReadBackFailed)
      ensures reply.ProfileUpdated? ==>
        && reply.user.id == userId && reply.user in users
        && reply.user.data.firstName == first && reply.user.data.lastName == last
        && (picture.Some? ==> reply.user.data.profilePicture == picture)
        && (reply.pictureUrl.Some? <==> Truthy(reply.user.data.profilePicture))
      ensures nextUserId == old(nextUserId) && otps == old(otps)
      ensures loginHistory == old(loginHistory) && nextLoginId == old(nextLoginId)
    {
      var before := users;
      var after := UpdateNames(before, userId, first, last, picture);
      UpdateNamesSameKeys(before, userId, first, last, picture);
      SameKeysPreserve(before, after, nextUserId);
      SameKeysSameIds(before, after, userId);
      users := after;
      var k := SelectFirst(after, IdIs(userId));
      if k.None? {
        return ProfileFailed(Reply(500, ReadBackFailed));
      }
      UpdatedRow(before, userId, first, last, picture, k.value);
      var u := after[k.value];
      var url := if Truthy(u.data.profilePicture)
        then Some(UploadsUrl + u.data.profilePicture.value + "?t=" + IntString(nowMs)) else None;
      reply := ProfileUpdated(u, url);
    }

    /** `getLoginHistory`: every joined entry, newest login first. */
    function GetLoginHistory(): (r: seq<Row<LoginView>>)
      reads this
      ensures SortedDesc(r, LoginTimeOf)
      ensures multiset(r) == multiset(JoinLogins(users, loginHistory))
    {
      SortDesc(JoinLogins(users, loginHistory), LoginTimeOf)
    }

    /** `deleteLoginHistoryByUserId` (which deletes by the row's own id): 400 without an id,
        404 when no row has it (so deleting twice gives 404), otherwise exactly that row goes. */
    method DeleteLoginHistoryByUserId(id: Option<int>) returns (reply: Reply)
      requires Valid()
      modifies this
      ensures Valid()
      ensures id.None? ==> reply == Reply(400, IdRequired) && loginHistory == old(loginHistory)
      ensures id.Some? && !HasId(old(loginHistory), id.value) ==>
        reply == Reply(404, HistoryNotFound) && loginHistory == old(loginHistory)
      ensures id.Some? && HasId(old(loginHistory), id.value) ==>
        && reply == Reply(200, HistoryDeleted)
        && loginHistory == RemoveId(old(loginHistory), id.value)
        && |loginHistory| == |old(loginHistory)| - 1
      ensures users == old(users) && nextUserId == old(nextUserId) && nextLoginId == old(nextLoginId)
      ensures otps == old(otps)
    {
      if id.None? {
        return Reply(400, IdRequired);
      }
      var before := loginHistory;
      RemoveIdWellFormed(before, nextLoginId, id.value);
      RemoveIdAbsentSize(before, id.value);
      loginHistory := RemoveId(before, id.value);
      if |loginHistory| == |before| {
        RemoveIdAbsent(before, id.value);
        return Reply(404, HistoryNotFound);
      }
      RemoveIdOne(before, nextLoginId, id.value);
      reply := Reply(200, HistoryDeleted);
    }

    /** `deleteAllLoginHistory` */
    method DeleteAllLoginHistory() returns (reply: Reply)
      requires Valid()
      modifies this
      ensures Valid()
      ensures loginHistory == [] && reply == Reply(200, AllHistoryDeleted)
      ensures users == old(users) && nextUserId == old(nextUserId) && nextLoginId == old(nextLoginId)
      ensures otps == old(otps)
    {
      loginHistory := [];
      reply := Reply(200, AllHistoryDeleted);
    }
  }
}
