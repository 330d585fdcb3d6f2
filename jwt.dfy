/** Bearer-token checks for the mobile API (lib/jwt-utils.ts). The signing and
    verification library is a parameter: `sign` returns None where it would
    throw, and `verify` reports one of the outcomes below. */
module Jwt {
  import opened Common

  /** The claims the portal signs. */
  datatype Claims = Claims(userId: nat, email: string, role: string, memberId: Option<nat>)

  datatype AuthResult = AuthResult(success: bool, user: Option<Claims>, error: Option<string>)

  /** How a call to `jwt.verify` ends: it returns the payload, throws a
      JsonWebTokenError (a bad signature, a malformed token, and also an expired
      one, since TokenExpiredError is a subclass), or throws something else. */
  datatype VerifyOutcome = Verified(payload: Claims) | JwtError | OtherError

  const FallbackSecret := "fallback-secret"
  const BearerPrefix := "Bearer "

  /** Token lifetime, `expiresIn: '7d'`, in seconds. */
  const TokenLifetime := 7 * 24 * 60 * 60

  /** `process.env.NEXTAUTH_SECRET || 'fallback-secret'`. */
  function Secret(env: Option<string>): (s: string)
    ensures env.Some? && env.value != "" ==> s == env.value
    ensures env.None? || env.value == "" ==> s == FallbackSecret
  {
    if env.Some? && env.value != "" then env.value else FallbackSecret
  }

  /** `signJWT`: the token, or the rethrown error "Failed to sign JWT token". */
  function SignJWT(payload: Claims, env: Option<string>,
                   sign: (Claims, string, nat) -> Option<string>): (r: Result<string>)
    ensures r.Ok? <==> sign(payload, Secret(env), TokenLifetime).Some?
    ensures r.Ok? ==> r.value == sign(payload, Secret(env), TokenLifetime).value
    ensures r.Err? ==> r.message == "Failed to sign JWT token"
  {
    match sign(payload, Secret(env), TokenLifetime)
    case Some(t) => Ok(t)
    case None => Err("Failed to sign JWT token")
  }

  /** The header is usable when present, non-empty and starting with "Bearer "
      (case-sensitive, one space). */
  predicate BearerHeader(header: Option<string>)
  {
    header.Some? && header.value != "" && StartsWith(header.value, BearerPrefix)
  }

  /** `verifyJWT(request)`, given the Authorization header. */
  function VerifyJWT(header: Option<string>, env: Option<string>,
                     verify: (string, string) -> VerifyOutcome): (r: AuthResult)
    // fails closed: success exactly when the header is well formed and the verifier accepts
    ensures r.success <==> BearerHeader(header) && verify(header.value[7..], Secret(env)).Verified?
    ensures r.success ==> r.user == Some(verify(header.value[7..], Secret(env)).payload) && r.error.None?
    ensures !r.success ==> r.user.None? && r.error.Some?
    ensures !BearerHeader(header) ==> r.error == Some("Missing or invalid authorization header")
  {
    if header.None? || header.value == "" || !StartsWith(header.value, BearerPrefix) then
      AuthResult(false, None, Some("Missing or invalid authorization header"))
    else
      var token := header.value[7..];
      match verify(token, Secret(env))
      case Verified(payload) => AuthResult(true, Some(payload), None)
      case JwtError => AuthResult(false, None, Some("Invalid token"))
      case OtherError => AuthResult(false, None, Some("Token verification failed"))
  }

  /** The verifier receives the text after "Bearer ": prefixing any token and
      verifying gives the verifier's verdict on that token. */
  lemma BearerRoundTrip(token: string, env: Option<string>, verify: (string, string) -> VerifyOutcome)
    ensures VerifyJWT(Some(BearerPrefix + token), env, verify).success <==> verify(token, Secret(env)).Verified?
  {
    var h := BearerPrefix + token;
    assert StartsWith(h, BearerPrefix);
    assert h[7..] == token;
  }

  /** The scheme name is matched case-sensitively: "bearer x" is refused
      whatever the verifier would say. */
  lemma LowercaseSchemeRefused(token: string, env: Option<string>, verify: (string, string) -> VerifyOutcome)
    ensures !VerifyJWT(Some("bearer " + token), env, verify).success
  {
    assert ("bearer " + token)[0] == 'b';
  }
}
