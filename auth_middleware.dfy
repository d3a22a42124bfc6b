/**
 * The admin gate in front of the protected routes: the bearer token is
 * taken from the `Authorization` header, verified, and its role checked;
 * and the two helpers that answer a refused request.
 */
module AuthMiddleware {
  import opened Common
  import opened Http
  import opened AdminModel
  import opened AuthService

  /** The gate's verdict: the caller's claims, or why the request is refused. */
  datatype AuthResult = Authorized(user: Claims) | Unauthorized(error: string)

  const BearerPrefix: string := "Bearer "

  const NoTokenMessage: string := "No token provided"
  const InvalidTokenMessage: string := "Invalid or expired token"
  const NotAdminMessage: string := "Unauthorized access"

  /** The header carries `t` as its bearer token. */
  predicate CarriesToken(header: Option<string>, t: string) {
    header == Some(BearerPrefix + t)
  }

  /** The token of a header that starts with `Bearer `: everything after
      its first seven characters. */
  function BearerToken(header: Option<string>): (t: Option<string>)
    ensures t.Some? <==> exists u :: CarriesToken(header, u)
    ensures t.Some? ==> CarriesToken(header, t.value)
  {
    if header.Some? && header.value != "" && BearerPrefix <= header.value then
      var t := header.value[|BearerPrefix|..];
      assert BearerPrefix + t == header.value;
      assert CarriesToken(header, t);
      Some(t)
    else
      assert forall u :: !CarriesToken(header, u) by {
        forall u ensures !CarriesToken(header, u) {
          assert BearerPrefix <= BearerPrefix + u;
        }
      }
      None
  }

  /** A header carries at most one token. */
  lemma CarriedTokenUnique(header: Option<string>, t: string, u: string)
    requires CarriesToken(header, t) && CarriesToken(header, u)
    ensures t == u
  {
    assert (BearerPrefix + t)[|BearerPrefix|..] == t;
    assert (BearerPrefix + u)[|BearerPrefix|..] == u;
  }

  /** `authMiddleware`, with `verify` standing for `AuthService.verifyToken`. */
  function Authenticate(header: Option<string>, verify: string -> Option<Claims>): (r: AuthResult)
    ensures r.Authorized? <==>
      exists t :: CarriesToken(header, t) && verify(t).Some? && verify(t).value.role == AdminRole
    ensures r.Authorized? ==> exists t :: CarriesToken(header, t) && verify(t) == Some(r.user)
    ensures r.Unauthorized? ==> r.error in {NoTokenMessage, InvalidTokenMessage, NotAdminMessage}
  {
    match BearerToken(header)
    case None => Unauthorized(NoTokenMessage)
    case Some(t) =>
      assert forall u :: CarriesToken(header, u) ==> u == t by {
        forall u | CarriesToken(header, u) ensures u == t {
          CarriedTokenUnique(header, t, u);
        }
      }
      match verify(t)
      case None => Unauthorized(InvalidTokenMessage)
      case Some(decoded) =>
        if decoded.role != AdminRole then Unauthorized(NotAdminMessage)
        else Authorized(decoded)
  }

  /** A missing header, or one that does not start with `Bearer `, is
      refused for want of a token, whatever the verifier. */
  lemma NoTokenRefused(header: Option<string>, verify: string -> Option<Claims>)
    requires forall t :: !CarriesToken(header, t)
    ensures Authenticate(header, verify) == Unauthorized(NoTokenMessage)
  {
  }

  /** A token the verifier rejects is refused as invalid or expired. */
  lemma RejectedTokenRefused(t: string, verify: string -> Option<Claims>)
    requires verify(t).None?
    ensures Authenticate(Some(BearerPrefix + t), verify) == Unauthorized(InvalidTokenMessage)
  {
    CarriedTokenUnique(Some(BearerPrefix + t), t, BearerToken(Some(BearerPrefix + t)).value);
  }

  /** A valid token whose role is not `admin` is refused. */
  lemma NonAdminRefused(t: string, verify: string -> Option<Claims>)
    requires verify(t).Some? && verify(t).value.role != AdminRole
    ensures Authenticate(Some(BearerPrefix + t), verify) == Unauthorized(NotAdminMessage)
  {
    CarriedTokenUnique(Some(BearerPrefix + t), t, BearerToken(Some(BearerPrefix + t)).value);
  }

  /** A valid admin token is let through, the caller being its claims. */
  lemma AdminTokenAccepted(t: string, verify: string -> Option<Claims>)
    requires verify(t).Some? && verify(t).value.role == AdminRole
    ensures Authenticate(Some(BearerPrefix + t), verify) == Authorized(verify(t).value)
  {
    CarriedTokenUnique(Some(BearerPrefix + t), t, BearerToken(Some(BearerPrefix + t)).value);
  }

  /** A token issued at login passes the gate as the logged-in admin, given
      that `jwt.verify` accepts what `jwt.sign` produced under the same
      secret. */
  lemma LoginTokenPassesGate(admins: seq<AdminRecord>, cred: Credentials,
                             compare: (string, string) -> Option<bool>, sign: Claims -> Option<string>,
                             jwtVerify: string -> Result<Claims, string>)
    requires forall c, t :: sign(c) == Some(t) ==> jwtVerify(t) == Success(c)
    requires Login(admins, cred, compare, sign).Success?
    ensures var session := Login(admins, cred, compare, sign).value;
      Authenticate(Some(BearerPrefix + session.token), t => VerifyToken(t, jwtVerify))
        == Authorized(Claims(session.admin.id, AdminRole))
  {
    var session := Login(admins, cred, compare, sign).value;
    var claims := Claims(session.admin.id, AdminRole);
    assert sign(claims) == Some(session.token);
    SignedTokenVerifies(claims, session.token, sign, jwtVerify);
    AdminTokenAccepted(session.token, t => VerifyToken(t, jwtVerify));
  }

  lemma SignedTokenVerifies(claims: Claims, token: string, sign: Claims -> Option<string>,
                            jwtVerify: string -> Result<Claims, string>)
    requires forall c, t :: sign(c) == Some(t) ==> jwtVerify(t) == Success(c)
    requires sign(claims) == Some(token)
    ensures VerifyToken(token, jwtVerify) == Some(claims)
  {
  }

  /** `unauthorizedResponse`: status 401 with the message, "Unauthorized"
      when none is given. */
  function UnauthorizedResponse<T>(message: Option<string>): (r: Response<T>)
    ensures r.status == StatusUnauthorized && !Succeeded(r)
    ensures r.body.error == if message.Some? then message.value else "Unauthorized"
  {
    Fail(StatusUnauthorized, message.GetOr("Unauthorized"))
  }

  /** `forbiddenResponse`: status 403 with the message, "Forbidden" when
      none is given. */
  function ForbiddenResponse<T>(message: Option<string>): (r: Response<T>)
    ensures r.status == StatusForbidden && !Succeeded(r)
    ensures r.body.error == if message.Some? then message.value else "Forbidden"
  {
    Fail(StatusForbidden, message.GetOr("Forbidden"))
  }
}
