/**
 * The authentication service: verifying and issuing tokens, logging in,
 * and registering admins into the admin collection. `jwt.sign`,
 * `jwt.verify`, `bcrypt.hash` and `bcrypt.compare` are functions the
 * caller passes in; each may fail (`None` or `Failure`), which is where
 * the library would throw.
 */
module AuthService {
  import opened Common
  import opened ObjectIds
  import opened AdminModel

  /** The claims a token carries. */
  datatype Claims = Claims(id: string, role: string)

  /** `LoginDto` and `RegisterDto`. */
  datatype Credentials = Credentials(email: string, password: string)

  /** A stored admin document; `password` is the stored hash. */
  datatype AdminRecord = AdminRecord(
    id: ObjectId, email: string, password: string, role: string, createdAt: nat, updatedAt: nat)

  /** The `admin` part of a successful answer. */
  datatype AdminView = AdminView(id: string, email: string, role: string)

  datatype Session = Session(token: string, admin: AdminView)

  /** `AuthResponse`: a session, or the failure message. */
  type AuthResponse = Result<Session, string>

  const InvalidCredentialsMessage: string := "Invalid email or password"
  const LoginErrorMessage: string := "An error occurred during login"
  const AlreadyRegisteredMessage: string := "Email already registered"
  const RegistrationErrorMessage: string := "An error occurred during registration"

  /** `verifyToken`: the decoded claims, or nothing when verification throws
      (bad signature, expired, malformed); it never fails itself. */
  function VerifyToken(token: string, jwtVerify: string -> Result<Claims, string>): (r: Option<Claims>)
    ensures r.Some? <==> jwtVerify(token).Success?
    ensures r.Some? ==> jwtVerify(token) == Success(r.value)
  {
    match jwtVerify(token)
    case Success(c) => Some(c)
    case Failure(_) => None
  }

  /** `generateToken`: the admin's id signed with the role `admin`, or
      nothing when signing throws. */
  function GenerateToken(sign: Claims -> Option<string>, adminId: string): (t: Option<string>)
    ensures t.Some? ==> sign(Claims(adminId, AdminRole)) == t
    ensures t.None? <==> sign(Claims(adminId, AdminRole)).None?
  {
    sign(Claims(adminId, AdminRole))
  }

  /** What an answer tells about an admin: no password. */
  function ViewOf(a: AdminRecord): AdminView {
    AdminView(ToHexString(a.id), a.email, a.role)
  }

  /** `Admin.findOne({ email })`: the query value goes through the email
      setters, so the lookup is by the normalised email. */
  function FindByEmail(admins: seq<AdminRecord>, email: string): (r: Option<nat>)
    ensures r.None? <==> forall i :: 0 <= i < |admins| ==> admins[i].email != NormalizeEmail(email)
    ensures r.Some? ==> r.value < |admins| && admins[r.value].email == NormalizeEmail(email)
  {
    FindStored(admins, NormalizeEmail(email))
  }

  function FindStored(admins: seq<AdminRecord>, email: string): (r: Option<nat>)
    ensures r.None? <==> forall i :: 0 <= i < |admins| ==> admins[i].email != email
    ensures r.Some? ==> r.value < |admins| && admins[r.value].email == email
  {
    if admins == [] then None
    else if admins[0].email == email then Some(0)
    else
      var r := FindStored(admins[1..], email);
      if r.None? then None else Some(r.value + 1)
  }

  /** `login`: an unknown email and a wrong password fail alike; a match is
      answered with a token for the admin's id and the admin's details, or
      with the generic error when signing throws. */
  function Login(admins: seq<AdminRecord>, cred: Credentials,
                 compare: (string, string) -> Option<bool>, sign: Claims -> Option<string>): (r: AuthResponse)
    ensures r.Failure? ==> r.error == InvalidCredentialsMessage || r.error == LoginErrorMessage
    ensures r.Success? ==>
      exists i :: 0 <= i < |admins| && admins[i].email == NormalizeEmail(cred.email)
        && ComparePassword(cred.password, Some(admins[i].password), compare)
        && r.value.admin == ViewOf(admins[i])
        && sign(Claims(r.value.admin.id, AdminRole)) == Some(r.value.token)
  {
    match FindByEmail(admins, cred.email)
    case None => Failure(InvalidCredentialsMessage)
    case Some(i) =>
      var a := admins[i];
      if !ComparePassword(cred.password, Some(a.password), compare) then
        Failure(InvalidCredentialsMessage)
      else
        match GenerateToken(sign, ToHexString(a.id))
        case None => Failure(LoginErrorMessage)
        case Some(token) => Success(Session(token, ViewOf(a)))
  }

  /** No admin has the email, or the one that has it has another password:
      either way the same message, so an answer does not tell which. */
  lemma LoginFailuresAlike(admins: seq<AdminRecord>, cred: Credentials,
                           compare: (string, string) -> Option<bool>, sign: Claims -> Option<string>)
    requires UniqueEmails(admins)
    requires forall i :: 0 <= i < |admins| && admins[i].email == NormalizeEmail(cred.email) ==>
               !ComparePassword(cred.password, Some(admins[i].password), compare)
    ensures Login(admins, cred, compare, sign) == Failure(InvalidCredentialsMessage)
  {
  }

  /** With emails unique, a successful login is the admin with that email. */
  lemma LoginFindsTheAdmin(admins: seq<AdminRecord>, cred: Credentials, i: nat,
                           compare: (string, string) -> Option<bool>, sign: Claims -> Option<string>)
    requires UniqueEmails(admins) && i < |admins| && admins[i].email == NormalizeEmail(cred.email)
    requires ComparePassword(cred.password, Some(admins[i].password), compare)
    requires sign(Claims(ToHexString(admins[i].id), AdminRole)).Some?
    ensures Login(admins, cred, compare, sign) ==
      Success(Session(sign(Claims(ToHexString(admins[i].id), AdminRole)).value, ViewOf(admins[i])))
  {
  }

  // ---------------------------------------------------------------------
  // The admin collection
  // ---------------------------------------------------------------------

  predicate UniqueEmails(admins: seq<AdminRecord>) {
    forall i, j :: 0 <= i < |admins| && 0 <= j < |admins| && admins[i].email == admins[j].email ==> i == j
  }

  /** What holds of each stored admin: its email is in stored form and
      passes the schema, its role is `admin`, and its id is the one
      generated at its creation time. */
  predicate StoredAdmin(a: AdminRecord, clock: nat) {
    && NormalizeEmail(a.email) == a.email && a.email != "" && EmailPattern(a.email)
    && a.role == AdminRole
    && 0 < a.createdAt <= a.updatedAt <= clock
    && a.id == ObjectId(a.createdAt)
  }

  predicate CredentialInvariant(admins: seq<AdminRecord>, clock: nat) {
    && clock < IdSpace
    && (forall i :: 0 <= i < |admins| ==> StoredAdmin(admins[i], clock))
    && UniqueEmails(admins)
  }

  /** The record `register` stores for accepted credentials at time `now`. */
  function NewAdmin(data: Credentials, hash: (string, string) -> string, salt: string, now: nat): (a: AdminRecord)
    ensures a.email == NormalizeEmail(data.email) && a.password == hash(data.password, salt)
    ensures a.role == AdminRole && a.id == ObjectId(now) && a.createdAt == now == a.updatedAt
  {
    AdminRecord(ObjectId(now), NormalizeEmail(data.email), hash(data.password, salt), AdminRole, now, now)
  }

  /** The credentials pass the schema once the email is in stored form. */
  predicate Acceptable(data: Credentials) {
    ValidAdmin(NormalizeEmail(data.email), data.password, AdminRole)
  }

  lemma InvariantRegister(admins: seq<AdminRecord>, clock: nat, a: AdminRecord, data: Credentials,
                          hash: (string, string) -> string, salt: string)
    requires CredentialInvariant(admins, clock) && clock + 1 < IdSpace
    requires FindByEmail(admins, data.email).None? && Acceptable(data)
    requires a == NewAdmin(data, hash, salt, clock + 1)
    ensures CredentialInvariant(admins + [a], clock + 1)
  {
    NormalizeEmailIdempotent(data.email);
    assert StoredAdmin(a, clock + 1);
    StoredAppend(admins, clock, a);
    UniqueAppend(admins, a);
  }

  lemma StoredAppend(admins: seq<AdminRecord>, clock: nat, a: AdminRecord)
    requires forall i :: 0 <= i < |admins| ==> StoredAdmin(admins[i], clock)
    requires StoredAdmin(a, clock + 1)
    ensures forall i :: 0 <= i < |admins| + 1 ==> StoredAdmin((admins + [a])[i], clock + 1)
  {
    forall i | 0 <= i < |admins| + 1
      ensures StoredAdmin((admins + [a])[i], clock + 1)
    {
      if i < |admins| {
        var b := admins[i];
        assert (admins + [a])[i] == b;
        assert StoredAdmin(b, clock);
      }
    }
  }

  lemma UniqueAppend(admins: seq<AdminRecord>, a: AdminRecord)
    requires UniqueEmails(admins)
    requires forall i :: 0 <= i < |admins| ==> admins[i].email != a.email
    ensures UniqueEmails(admins + [a])
  {
    var c := admins + [a];
    assert forall i :: 0 <= i < |admins| ==> c[i] == admins[i];
  }

  /** The admin collection, with the logical clock that stamps its writes. */
  class CredentialStore {
    var admins: seq<AdminRecord>
    var clock: nat

    ghost predicate Valid()
      reads this
    {
      CredentialInvariant(admins, clock)
    }

    constructor ()
      ensures Valid() && admins == [] && clock == 0
    {
      admins := [];
      clock := 0;
    }

    /** `register`: an email already taken is refused and nothing is stored;
        credentials the schema refuses fail with the generic error and
        nothing is stored; otherwise exactly one admin is stored, with the
        hashed password and role `admin`, and the answer is its token and
        details, or the generic error when signing throws (the admin then
        stays stored). */
    method Register(data: Credentials, hash: (string, string) -> string, salt: string,
                    sign: Claims -> Option<string>) returns (r: AuthResponse)
      requires Valid() && clock + 1 < IdSpace
      modifies this
      ensures Valid()
      ensures FindByEmail(old(admins), data.email).Some? ==>
        r == Failure(AlreadyRegisteredMessage) && admins == old(admins) && clock == old(clock)
      ensures FindByEmail(old(admins), data.email).None? && !Acceptable(data) ==>
        r == Failure(RegistrationErrorMessage) && admins == old(admins) && clock == old(clock)
      ensures FindByEmail(old(admins), data.email).None? && Acceptable(data) ==>
        var a := NewAdmin(data, hash, salt, old(clock) + 1);
        && clock == old(clock) + 1
        && admins == old(admins) + [a]
        && r == match sign(Claims(ToHexString(a.id), AdminRole))
                case None => Failure(RegistrationErrorMessage)
                case Some(token) => Success(Session(token, ViewOf(a)))
    {
      if FindByEmail(admins, data.email).Some? {
        return Failure(AlreadyRegisteredMessage);
      }
      var doc := new AdminDocument(data.email, data.password, Some(AdminRole));
      var saved := doc.Save(hash, salt);
      if saved.Failure? {
        return Failure(RegistrationErrorMessage);
      }
      var a := AdminRecord(ObjectId(clock + 1), doc.email, doc.password, doc.role, clock + 1, clock + 1);
      assert a == NewAdmin(data, hash, salt, clock + 1);
      InvariantRegister(admins, clock, a, data, hash, salt);
      Insert(a);
      match GenerateToken(sign, ToHexString(a.id))
      case None =>
        r := Failure(RegistrationErrorMessage);
      case Some(token) =>
        r := Success(Session(token, ViewOf(a)));
    }

    /** The insertion behind `Admin.create`, once the document has passed the
        schema and been hashed, under the next tick's id. */
    method Insert(a: AdminRecord)
      requires CredentialInvariant(admins + [a], clock + 1)
      modifies this
      ensures Valid()
      ensures clock == old(clock) + 1 && admins == old(admins) + [a]
    {
      admins := admins + [a];
      clock := clock + 1;
    }
  }

  /** Once registered, the same credentials log in as the new admin, given a
      comparison that accepts a password against its own hash. */
  lemma RegisteredCanLogIn(admins: seq<AdminRecord>, clock: nat, data: Credentials,
                           hash: (string, string) -> string, salt: string,
                           compare: (string, string) -> Option<bool>, sign: Claims -> Option<string>)
    requires CredentialInvariant(admins, clock) && clock + 1 < IdSpace
    requires FindByEmail(admins, data.email).None? && Acceptable(data)
    requires compare(data.password, hash(data.password, salt)) == Some(true)
    requires sign(Claims(ToHexString(ObjectId(clock + 1)), AdminRole)).Some?
    ensures var a := NewAdmin(data, hash, salt, clock + 1);
      Login(admins + [a], data, compare, sign) ==
        Success(Session(sign(Claims(ToHexString(a.id), AdminRole)).value, ViewOf(a)))
  {
    var a := NewAdmin(data, hash, salt, clock + 1);
    InvariantRegister(admins, clock, a, data, hash, salt);
    LoginFindsTheAdmin(admins + [a], data, |admins|, compare, sign);
  }
}
