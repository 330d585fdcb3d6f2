/** The token login endpoint (app/api/direct-login/route.ts): it checks the
    credentials like the next-auth sign-in, then signs a JWT and returns it both
    in the body and in an http-only cookie. A body that is not JSON is `None`;
    `dbUp` false stands for a database call that throws. */
module DirectLogin {
  import opened Common
  import opened Schema
  import opened Jwt
  import Auth

  datatype Body = Body(email: Json, password: Json)

  /** The `user` object of a successful reply. */
  datatype LoginUser = LoginUser(id: nat, name: string, email: string, role: string, memberId: Option<nat>)

  datatype Reply = Reply(status: nat, success: bool, error: Option<string>, user: Option<LoginUser>, token: Option<string>)

  datatype Cookie = Cookie(value: string, httpOnly: bool, secure: bool, sameSite: string, maxAge: nat)

  const CookieName := "auth-token"

  /** Cookie lifetime, `60 * 60 * 24 * 7`, in seconds. */
  const CookieMaxAge := 60 * 60 * 24 * 7

  const InvalidCredentials := Reply(401, false, Some("Invalid credentials"), None, None)
  const ServerError := Reply(500, false, Some("Internal server error"), None, None)

  /** The reply the handler builds, before the cookie is attached. */
  function Decide(body: Option<Body>, dbUp: bool, users: seq<User>, members: seq<Member>,
                  compare: (string, string) -> bool, env: Option<string>,
                  sign: (Claims, string, nat) -> Option<string>): (r: Reply)
    // a body that cannot be read is an exception
    ensures body.None? ==> r == ServerError
    ensures body.Some? && !(Truthy(body.value.email) && Truthy(body.value.password)) ==>
              r == Reply(400, false, Some("Email and password are required"), None, None)
    // `toLowerCase` on an e-mail that is not text, or a failing lookup, throws
    ensures (body.Some? && Truthy(body.value.email) && Truthy(body.value.password)
             && (!body.value.email.Str? || !dbUp)) ==> r == ServerError
    ensures r.status in {200, 400, 401, 500}
    ensures r.status == 401 ==> r == InvalidCredentials
    ensures r.success <==> r.status == 200
    ensures r.success ==> r.token.Some? && r.user.Some? && r.error.None?
    ensures !r.success ==> r.token.None? && r.user.None?
    // only a known address with a matching password is let in
    ensures r.success ==> && body.Some? && body.value.email.Str? && body.value.password.Str? && dbUp
                          && FindUserByEmail(users, Auth.LookupKey(body.value.email.s)).Some?
                          && compare(body.value.password.s, FindUserByEmail(users, Auth.LookupKey(body.value.email.s)).value.password)
    // and every such request is let in once the token can be signed
    ensures && body.Some? && body.value.email.Str? && body.value.password.Str?
            && body.value.email.s != "" && body.value.password.s != "" && dbUp
            && FindUserByEmail(users, Auth.LookupKey(body.value.email.s)).Some?
            && compare(body.value.password.s, FindUserByEmail(users, Auth.LookupKey(body.value.email.s)).value.password)
            && (forall c, k, n :: sign(c, k, n).Some?)
            ==> r.success
  {
    if body.None? then ServerError
    else if !Truthy(body.value.email) || !Truthy(body.value.password) then
      Reply(400, false, Some("Email and password are required"), None, None)
    else if !body.value.email.Str? then ServerError          // toLowerCase is not a function
    else if !dbUp then ServerError
    else
      match FindUserByEmail(users, Auth.LookupKey(body.value.email.s))
      case None => InvalidCredentials
      case Some(user) => CheckPassword(user, body.value.password, members, compare, env, sign)
  }

  /** The steps after the lookup found `user`: bcrypt, then signing. */
  function CheckPassword(user: User, password: Json, members: seq<Member>, compare: (string, string) -> bool,
                         env: Option<string>, sign: (Claims, string, nat) -> Option<string>): (r: Reply)
    // bcrypt throws on a password that is not text
    ensures !password.Str? ==> r == ServerError
    ensures password.Str? && !compare(password.s, user.password) ==> r == InvalidCredentials
    ensures password.Str? && compare(password.s, user.password) ==>
              var signed := SignJWT(Claims(user.id, user.email, user.role, Auth.MemberId(members, user.id)), env, sign);
              if signed.Err? then r == ServerError
              else r == Reply(200, true, None, Some(LoginUser(user.id, user.name, user.email, user.role,
                                                              Auth.MemberId(members, user.id))), Some(signed.value))
    ensures r.status in {200, 401, 500}
    ensures r.status == 401 ==> r == InvalidCredentials
    ensures r.success <==> r.status == 200
    ensures r.success ==> r.token.Some? && r.user.Some? && r.error.None? && password.Str? && compare(password.s, user.password)
    ensures !r.success ==> r.token.None? && r.user.None?
    ensures password.Str? && compare(password.s, user.password) && (forall c, k, n :: sign(c, k, n).Some?) ==> r.success
  {
    if !password.Str? then ServerError
    else if !compare(password.s, user.password) then InvalidCredentials
    else
      var memberId := Auth.MemberId(members, user.id);
      match SignJWT(Claims(user.id, user.email, user.role, memberId), env, sign)
      case Err(_) => ServerError
      case Ok(token) =>
        Reply(200, true, None, Some(LoginUser(user.id, user.name, user.email, user.role, memberId)), Some(token))
  }

  /** Past the lookup of a text e-mail: an unknown address is refused, a
      password that is not text makes bcrypt throw, a wrong one is refused,
      and a failed signing is an exception; otherwise the found user is let in
      with the signed token. */
  lemma AfterLookup(email: string, password: Json, users: seq<User>, members: seq<Member>,
                    compare: (string, string) -> bool, env: Option<string>,
                    sign: (Claims, string, nat) -> Option<string>)
    requires email != "" && Truthy(password)
    ensures var r := Decide(Some(Body(Str(email), password)), true, users, members, compare, env, sign);
            var found := FindUserByEmail(users, Auth.LookupKey(email));
            if found.None? then r == InvalidCredentials
            else if !password.Str? then r == ServerError
            else if !compare(password.s, found.value.password) then r == InvalidCredentials
            else
              var u := found.value;
              var signed := SignJWT(Claims(u.id, u.email, u.role, Auth.MemberId(members, u.id)), env, sign);
              if signed.Err? then r == ServerError
              else r == Reply(200, true, None, Some(LoginUser(u.id, u.name, u.email, u.role,
                                                              Auth.MemberId(members, u.id))), Some(signed.value))
  {
    assert Truthy(Str(email));
  }

  /** The HTTP response: a reply and a cookie jar. */
  class Response {
    var reply: Reply
    var cookies: map<string, Cookie>

    constructor (r: Reply)
      ensures reply == r && cookies == map[]
    {
      reply := r;
      cookies := map[];
    }

    /** `response.cookies.set(name, value, options)`. */
    method SetCookie(name: string, c: Cookie)
      modifies this
      ensures cookies == old(cookies)[name := c] && reply == old(reply)
    {
      cookies := cookies[name := c];
    }
  }

  /** `POST /api/direct-login`. `production` is `NODE_ENV === 'production'`. */
  method Post(body: Option<Body>, dbUp: bool, users: seq<User>, members: seq<Member>,
              compare: (string, string) -> bool, env: Option<string>,
              sign: (Claims, string, nat) -> Option<string>, production: bool)
    returns (resp: Response)
    ensures resp.reply == Decide(body, dbUp, users, members, compare, env, sign)
    ensures resp.reply.success ==>
              resp.cookies == map[CookieName := Cookie(resp.reply.token.value, true, production, "lax", CookieMaxAge)]
    ensures !resp.reply.success ==> resp.cookies == map[]
  {
    var r := Decide(body, dbUp, users, members, compare, env, sign);
    resp := new Response(r);
    if r.success {
      resp.SetCookie(CookieName, Cookie(r.token.value, true, production, "lax", CookieMaxAge));
    }
  }

  /** An unknown address and a wrong password are indistinguishable to the caller. */
  lemma UniformRejection(email: string, password: string, users: seq<User>, members: seq<Member>,
                         compare: (string, string) -> bool, env: Option<string>,
                         sign: (Claims, string, nat) -> Option<string>)
    requires email != "" && password != ""
    requires FindUserByEmail(users, Auth.LookupKey(email)).None?
          || !compare(password, FindUserByEmail(users, Auth.LookupKey(email)).value.password)
    ensures Decide(Some(Body(Str(email), Str(password))), true, users, members, compare, env, sign) == InvalidCredentials
  {
    assert Truthy(Str(password));
    AfterLookup(email, Str(password), users, members, compare, env, sign);
  }

  /** On success the token is the signature of the found user's
      {userId, email, role, memberId}, and the reply describes the same user. */
  lemma SignedClaims(email: string, password: string, users: seq<User>, members: seq<Member>,
                     compare: (string, string) -> bool, env: Option<string>,
                     sign: (Claims, string, nat) -> Option<string>)
    requires Decide(Some(Body(Str(email), Str(password))), true, users, members, compare, env, sign).success
    ensures var u := FindUserByEmail(users, Auth.LookupKey(email)).value;
            var r := Decide(Some(Body(Str(email), Str(password))), true, users, members, compare, env, sign);
            && r.token == Some(sign(Claims(u.id, u.email, u.role, Auth.MemberId(members, u.id)), Secret(env), TokenLifetime).value)
            && r.user == Some(LoginUser(u.id, u.name, u.email, u.role, Auth.MemberId(members, u.id)))
  {
  }

  /** The token endpoint and the next-auth sign-in accept the same credentials
      (when signing succeeds). */
  lemma AgreesWithAuthorize(email: string, password: string, users: seq<User>, members: seq<Member>,
                            compare: (string, string) -> bool, env: Option<string>,
                            sign: (Claims, string, nat) -> Option<string>)
    requires email != "" && password != ""
    requires forall c, s, n :: sign(c, s, n).Some?
    ensures Decide(Some(Body(Str(email), Str(password))), true, users, members, compare, env, sign).success
        <==> Auth.Authorize(Some(Auth.Credentials(Some(email), Some(password))), true, users, members, compare).Some?
  {
    var body := Body(Str(email), Str(password));
    var d := Decide(Some(body), true, users, members, compare, env, sign);
    var a := Auth.Authorize(Some(Auth.Credentials(Some(email), Some(password))), true, users, members, compare);
    assert d.success ==> a.Some?;
    assert a.Some? ==> d.success;
  }

  /** The cookie lives exactly as long as the token it carries. */
  lemma CookieMatchesToken()
    ensures CookieMaxAge == TokenLifetime == 604800
  {
  }
}
