/**
 * `POST /api/auth/login`: the input check and the mapping of the service's
 * answer to status codes.
 */
module LoginRoute {
  import opened Common
  import opened Http
  import opened AdminModel
  import opened AuthService

  const CredentialsRequiredMessage: string := "Email and password are required"
  const InternalErrorMessage: string := "Internal server error"

  /** The fields a login body may carry. */
  datatype LoginBody = LoginBody(email: Option<string>, password: Option<string>)

  /** `POST`: a body that cannot be read gives 500; a missing or empty email
      or password gives 400 without a login attempt; a refused login gives
      401 with the service's message; a successful one gives 200 with the
      service's token and admin unchanged. */
  function PostLogin(admins: seq<AdminRecord>, body: Option<LoginBody>,
                     compare: (string, string) -> Option<bool>, sign: Claims -> Option<string>): (r: Response<Session>)
    ensures body.None? ==> r == Fail(StatusServerError, InternalErrorMessage)
    ensures body.Some? && !(Truthy(body.value.email) && Truthy(body.value.password)) ==>
      r == Fail(StatusBadRequest, CredentialsRequiredMessage)
    ensures body.Some? && Truthy(body.value.email) && Truthy(body.value.password) ==>
      var result := Login(admins, Credentials(body.value.email.value, body.value.password.value), compare, sign);
      r == match result
           case Failure(message) => Fail(StatusUnauthorized, message)
           case Success(session) => Response(StatusOk, Data(session))
  {
    match body
    case None => Fail(StatusServerError, InternalErrorMessage)
    case Some(b) =>
      if !Truthy(b.email) || !Truthy(b.password) then Fail(StatusBadRequest, CredentialsRequiredMessage)
      else
        match Login(admins, Credentials(b.email.value, b.password.value), compare, sign)
        case Failure(message) => Fail(StatusUnauthorized, message)
        case Success(session) => Response(StatusOk, Data(session))
  }

  /** A 200 answer carries the details of a stored admin with that email
      whose password matched, and a token signed for that admin. */
  lemma SuccessIsStoredAdmin(admins: seq<AdminRecord>, b: LoginBody,
                             compare: (string, string) -> Option<bool>, sign: Claims -> Option<string>)
    requires Succeeded(PostLogin(admins, Some(b), compare, sign))
    ensures var r := PostLogin(admins, Some(b), compare, sign);
      && r.status == StatusOk
      && exists i :: 0 <= i < |admins| && admins[i].email == NormalizeEmail(b.email.value)
           && ComparePassword(b.password.value, Some(admins[i].password), compare)
           && r.body.data.admin == ViewOf(admins[i])
           && sign(Claims(r.body.data.admin.id, AdminRole)) == Some(r.body.data.token)
  {
  }

  /** An unknown email and a wrong password get the same 401 answer. */
  lemma RefusalsAlike(admins: seq<AdminRecord>, b: LoginBody,
                      compare: (string, string) -> Option<bool>, sign: Claims -> Option<string>)
    requires UniqueEmails(admins) && Truthy(b.email) && Truthy(b.password)
    requires forall i :: 0 <= i < |admins| && admins[i].email == NormalizeEmail(b.email.value) ==>
               !ComparePassword(b.password.value, Some(admins[i].password), compare)
    ensures PostLogin(admins, Some(b), compare, sign) == Fail(StatusUnauthorized, InvalidCredentialsMessage)
  {
    LoginFailuresAlike(admins, Credentials(b.email.value, b.password.value), compare, sign);
  }
}
