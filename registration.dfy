/**
 * The account registration route (`POST /api/auth/register`): field
 * presence, e-mail pattern and password length checks, the duplicate-e-mail
 * lookup, and the stored record. The user collection is a sequence of
 * records; password hashing is a function supplied by the caller, and
 * `backendUp` says whether the database and the hashing library answer.
 */
module Registration {
  import opened Wrappers
  import opened JsStrings

  datatype RegisterRequest = RegisterRequest(name: Option<string>, email: Option<string>, password: Option<string>)

  /** A document of the user collection, as saved. */
  datatype UserRecord = UserRecord(name: string, email: string, passwordHash: string)

  datatype RegisterReply =
    | Created
    | MissingFields(nameMissing: bool, emailMissing: bool, passwordMissing: bool)
    | InvalidEmail
    | WeakPassword
    | EmailTaken
    | ValidationFailed
    | InternalError

  /** The HTTP status the route answers with. */
  function StatusCode(r: RegisterReply): nat {
    match r
    case Created => 201
    case InternalError => 500
    case _ => 400
  }

  const MinPasswordLength: nat := 6

  /** The checks made before the user collection is consulted; `None` when all pass. */
  function Validate(req: RegisterRequest): (r: Option<RegisterReply>)
    ensures r.None? <==>
      && Truthy(req.name) && Truthy(req.email) && Truthy(req.password)
      && MatchesEmailPattern(req.email.value)
      && Utf16Length(req.password.value) >= MinPasswordLength
    ensures r.Some? ==> StatusCode(r.value) == 400 && r.value != EmailTaken
    ensures !(Truthy(req.name) && Truthy(req.email) && Truthy(req.password)) ==>
      r == Some(MissingFields(!Truthy(req.name), !Truthy(req.email), !Truthy(req.password)))
    ensures Truthy(req.name) && Truthy(req.email) && Truthy(req.password) && !MatchesEmailPattern(req.email.value) ==>
      r == Some(InvalidEmail)
    ensures Truthy(req.name) && Truthy(req.email) && Truthy(req.password) && MatchesEmailPattern(req.email.value)
      && Utf16Length(req.password.value) < MinPasswordLength
      ==> r == Some(WeakPassword)
  {
    EmailCheckMatchesPattern(if req.email.Some? then req.email.value else "");
    if !Truthy(req.name) || !Truthy(req.email) || !Truthy(req.password) then
      Some(MissingFields(!Truthy(req.name), !Truthy(req.email), !Truthy(req.password)))
    else if !IsEmailShaped(req.email.value) then Some(InvalidEmail)
    else if Utf16Length(req.password.value) < MinPasswordLength then Some(WeakPassword)
    else None
  }

  predicate HasEmail(users: seq<UserRecord>, email: string) {
    exists i :: 0 <= i < |users| && users[i].email == email
  }

  /**
   * The whole route: the reply and the user collection afterwards. The
   * duplicate lookup uses the e-mail as typed; the unique index on the stored,
   * lower-cased e-mail rejects a duplicate the lookup missed; a trimmed name
   * that is empty fails the schema's `required` check.
   */
  function Register(users: seq<UserRecord>, req: RegisterRequest, hash: string -> string, backendUp: bool)
    : (r: (RegisterReply, seq<UserRecord>))
    ensures Validate(req).Some? ==> r == (Validate(req).value, users)
    ensures r.0 == Created ==>
      && Validate(req) == None && backendUp && Trim(req.name.value) != ""
      && !HasEmail(users, AsciiLower(req.email.value))
      && r.1 == users + [UserRecord(Trim(req.name.value), AsciiLower(req.email.value), hash(req.password.value))]
    ensures r.0 != Created ==> r.1 == users
    ensures Validate(req).None? && !backendUp ==> r.0 == InternalError
    ensures Validate(req).None? && backendUp && HasEmail(users, req.email.value) ==> r.0 == EmailTaken
    ensures Validate(req).None? && backendUp && !HasEmail(users, req.email.value) && Trim(req.name.value) == "" ==>
      r.0 == ValidationFailed
    ensures Validate(req).None? && backendUp && !HasEmail(users, req.email.value) && Trim(req.name.value) != ""
      && !HasEmail(users, AsciiLower(req.email.value))
      ==> r.0 == Created
  {
    match Validate(req)
    case Some(refusal) => (refusal, users)
    case None =>
      var name, email, password := req.name.value, req.email.value, req.password.value;
      if !backendUp then (InternalError, users)
      else if HasEmail(users, email) then (EmailTaken, users)
      else
        var record := UserRecord(Trim(name), AsciiLower(email), hash(password));
        if record.name == "" then (ValidationFailed, users)
        else if HasEmail(users, record.email) then (EmailTaken, users)
        else (Created, users + [record])
  }

  /** What every stored record satisfies. */
  ghost predicate WellFormedUsers(users: seq<UserRecord>) {
    forall i :: 0 <= i < |users| ==> WellFormedRecord(users[i])
  }

  /** A stored record: a non-empty name with no whitespace at either end, and a lower-cased e-mail of the required shape. */
  ghost predicate WellFormedRecord(u: UserRecord) {
    && u.name != "" && !IsJsWhitespace(u.name[0]) && !IsJsWhitespace(u.name[|u.name| - 1])
    && AsciiLower(u.email) == u.email
    && MatchesEmailPattern(u.email)
  }

  /** No two stored records share an e-mail. */
  predicate EmailsDistinct(users: seq<UserRecord>) {
    forall i, j :: 0 <= i < j < |users| ==> users[i].email != users[j].email
  }

  /** Trimming a string that is already trimmed changes nothing. */
  lemma TrimIdempotent(s: string)
    ensures Trim(Trim(s)) == Trim(s)
  {
    var t := Trim(s);
    if t != [] {
      assert TrimStart(t) == t;
      assert TrimEnd(t) == t;
    }
  }

  /** Lower-casing ASCII letters keeps a string within the e-mail pattern. */
  lemma LowerKeepsEmailPattern(s: string)
    requires MatchesEmailPattern(s)
    ensures MatchesEmailPattern(AsciiLower(s))
  {
    var l := AsciiLower(s);
    var i, j :| 0 < i && i + 1 < j && j + 1 < |s| && s[i] == '@' && s[j] == '.'
      && (forall k :: 0 <= k < |s| && k != i ==> IsAddressChar(s[k]));
    assert l[i] == '@' && l[j] == '.';
    assert forall k :: 0 <= k < |l| && k != i ==> IsAddressChar(l[k]);
  }

  /** The record a valid request stores is well formed: trimmed name, lower-cased e-mail of the required shape. */
  lemma StoredRecordWellFormed(req: RegisterRequest, hash: string -> string)
    requires Validate(req).None? && Trim(req.name.value) != ""
    ensures WellFormedRecord(UserRecord(Trim(req.name.value), AsciiLower(req.email.value), hash(req.password.value)))
  {
    assert MatchesEmailPattern(req.email.value);
    AsciiLowerIdempotent(req.email.value);
    LowerKeepsEmailPattern(req.email.value);
  }

  /** Appending a well-formed record keeps the collection well formed. */
  lemma AppendKeepsWellFormed(users: seq<UserRecord>, u: UserRecord)
    requires WellFormedUsers(users) && WellFormedRecord(u)
    ensures WellFormedUsers(users + [u])
  {
    var r := users + [u];
    assert forall i :: 0 <= i < |users| ==> r[i] == users[i];
    assert r[|users|] == u;
  }

  /** Appending a record with a new e-mail keeps the e-mails distinct. */
  lemma AppendKeepsEmailsDistinct(users: seq<UserRecord>, u: UserRecord)
    requires EmailsDistinct(users) && !HasEmail(users, u.email)
    ensures EmailsDistinct(users + [u])
  {
    var r := users + [u];
    forall i, j | 0 <= i < j < |r| ensures r[i].email != r[j].email {
      assert r[i] == users[i];
      if j < |users| { assert r[j] == users[j]; }
    }
  }

  /** Registration keeps the collection well formed and free of duplicate e-mails, whatever case the request used. */
  lemma RegisterPreservesCollection(users: seq<UserRecord>, req: RegisterRequest, hash: string -> string, backendUp: bool)
    requires WellFormedUsers(users) && EmailsDistinct(users)
    ensures WellFormedUsers(Register(users, req, hash, backendUp).1)
    ensures EmailsDistinct(Register(users, req, hash, backendUp).1)
  {
    if Register(users, req, hash, backendUp).0 == Created {
      StoredRecordWellFormed(req, hash);
      var u := UserRecord(Trim(req.name.value), AsciiLower(req.email.value), hash(req.password.value));
      AppendKeepsWellFormed(users, u);
      AppendKeepsEmailsDistinct(users, u);
    }
  }

  /** An e-mail whose lower-cased form is already stored is refused as taken, whatever case the request used. */
  lemma RegisterRefusesCaseVariant(users: seq<UserRecord>, req: RegisterRequest, hash: string -> string, k: nat)
    requires Validate(req).None? && Trim(req.name.value) != ""
    requires k < |users| && users[k].email == AsciiLower(req.email.value)
    ensures Register(users, req, hash, true).0 == EmailTaken
  {
    assert HasEmail(users, AsciiLower(req.email.value));
  }
}
