/** Sign-in with e-mail and password through next-auth (lib/auth.ts): the
    credentials check, and the two callbacks that copy the user's role and
    member id into the token and from there into the session. Password
    comparison (bcrypt) is the parameter `compare(plain, hash)`; `dbUp` false
    stands for a database call that throws. */
module Auth {
  import opened Common
  import opened Schema

  datatype Credentials = Credentials(email: Option<string>, password: Option<string>)

  /** The user object `authorize` hands to next-auth. */
  datatype AuthUser = AuthUser(id: string, email: string, name: string, role: string, memberId: Option<nat>)

  /** `session.user` as the portal declares it; each field may be missing. */
  datatype SessionUser = SessionUser(
    id: Option<string>, name: Option<string>, email: Option<string>,
    role: Option<string>, memberId: Option<nat>)

  /** Session and token lifetimes, in seconds. */
  const SessionMaxAge := 30 * 24 * 60 * 60
  const JwtMaxAge := 30 * 24 * 60 * 60

  /** JavaScript truthiness of an optional text field. */
  predicate Present(v: Option<string>)
  {
    v.Some? && v.value != ""
  }

  /** The key the user table is searched by: `email.toLowerCase().trim()`. */
  function LookupKey(email: string): (k: string)
    ensures |k| <= |email|
  {
    Trim(Lower(email))
  }

  function MemberId(members: seq<Member>, userId: nat): (r: Option<nat>)
    ensures r.Some? <==> MemberOf(members, userId).Some?
    ensures r.Some? ==> r.value == MemberOf(members, userId).value.id
  {
    match MemberOf(members, userId)
    case Some(m) => Some(m.id)
    case None => None
  }

  /** The credentials provider's `authorize`. */
  function Authorize(creds: Option<Credentials>, dbUp: bool, users: seq<User>, members: seq<Member>,
                     compare: (string, string) -> bool): (r: Option<AuthUser>)
    // every failure, whatever its cause, is the same null
    ensures r.Some? <==>
      && creds.Some? && Present(creds.value.email) && Present(creds.value.password)
      && dbUp
      && FindUserByEmail(users, LookupKey(creds.value.email.value)).Some?
      && compare(creds.value.password.value, FindUserByEmail(users, LookupKey(creds.value.email.value)).value.password)
    ensures r.Some? ==>
      var u := FindUserByEmail(users, LookupKey(creds.value.email.value)).value;
      && r.value.id == NatToDecimal(u.id)
      && r.value.email == u.email && r.value.name == u.name && r.value.role == u.role
      && r.value.memberId == MemberId(members, u.id)
  {
    if creds.None? || !Present(creds.value.email) || !Present(creds.value.password) then None
    else if !dbUp then None
    else
      match FindUserByEmail(users, LookupKey(creds.value.email.value))
      case None => None
      case Some(user) =>
        if !compare(creds.value.password.value, user.password) then None
        else Some(AuthUser(NatToDecimal(user.id), user.email, user.name, user.role, MemberId(members, user.id)))
  }

  /** Addresses that differ only in letter case or surrounding white space sign in the same user. */
  lemma LookupIgnoresCaseAndSpace(e1: string, e2: string, pw: Option<string>, dbUp: bool,
                                  users: seq<User>, members: seq<Member>, compare: (string, string) -> bool)
    requires e1 != "" && e2 != ""
    requires LookupKey(e1) == LookupKey(e2)
    ensures Authorize(Some(Credentials(Some(e1), pw)), dbUp, users, members, compare)
         == Authorize(Some(Credentials(Some(e2), pw)), dbUp, users, members, compare)
  {
  }

  /** Changing letter case or adding surrounding spaces keeps the lookup key. */
  lemma LookupKeyNormalises(e: string)
    ensures LookupKey(Lower(e)) == LookupKey(e)
    ensures LookupKey(" " + e + " ") == LookupKey(e)
  {
    LowerIdempotent(e);
    var s := " " + e + " ";
    assert Lower(s) == " " + Lower(e) + " ";
    TrimPadded(Lower(e));
  }

  /** One space on each side is dropped by `trim`. */
  lemma TrimPadded(t: string)
    ensures Trim(" " + t + " ") == Trim(t)
  {
    var s := " " + t + " ";
    if AllSpace(t) {
      assert AllSpace(s) by {
        forall i | 0 <= i < |s| ensures IsSpace(s[i]) {
          if 0 < i < |s| - 1 { assert s[i] == t[i - 1]; }
        }
      }
    } else {
      assert TrimStart(s) == TrimStart(t + " ") by {
        assert s[1..] == t + " ";
      }
      TrimStartPadded(t);
      TrimEndPadded(TrimStart(t));
    }
  }

  lemma {:induction false} TrimStartPadded(t: string)
    requires !AllSpace(t)
    ensures TrimStart(t + " ") == TrimStart(t) + " "
    decreases |t|
  {
    if IsSpace(t[0]) {
      assert (t + " ")[1..] == t[1..] + " ";
      assert !AllSpace(t[1..]) by {
        var i :| 0 <= i < |t| && !IsSpace(t[i]);
        assert t[1..][i - 1] == t[i];
      }
      TrimStartPadded(t[1..]);
    }
  }

  lemma TrimEndPadded(t: string)
    ensures TrimEnd(t + " ") == TrimEnd(t)
  {
    assert (t + " ")[..|t|] == t;
  }

  /** The id handed to next-auth is the decimal text of the user's key, and
      `parseInt` reads the same key back (what the news API stores as authorId). */
  lemma AuthorizedIdParses(creds: Option<Credentials>, dbUp: bool, users: seq<User>, members: seq<Member>,
                           compare: (string, string) -> bool)
    requires Authorize(creds, dbUp, users, members, compare).Some?
    ensures ParseInt(Authorize(creds, dbUp, users, members, compare).value.id)
         == Some(FindUserByEmail(users, LookupKey(creds.value.email.value)).value.id as int)
  {
    ParseDecimal(FindUserByEmail(users, LookupKey(creds.value.email.value)).value.id);
  }

  lemma Lifetimes()
    ensures SessionMaxAge == JwtMaxAge == 2592000
  {
  }

  /** The session token next-auth keeps in its cookie. */
  class JwtToken {
    var sub: Option<string>
    var name: Option<string>
    var email: Option<string>
    var role: Option<string>
    var memberId: Option<nat>

    /** next-auth's default claims for a fresh sign-in: the subject is the user's id. */
    constructor SignIn(user: AuthUser)
      ensures sub == Some(user.id) && name == Some(user.name) && email == Some(user.email)
      ensures role.None? && memberId.None?
    {
      sub := Some(user.id);
      name := Some(user.name);
      email := Some(user.email);
      role := None;
      memberId := None;
    }

    /** The `jwt` callback: on sign-in it copies role and member id from the
        user; on every later call (no user) it leaves the token alone. */
    method JwtCallback(user: Option<AuthUser>)
      modifies this
      ensures user.Some? ==> role == Some(user.value.role) && memberId == user.value.memberId
      ensures user.None? ==> role == old(role) && memberId == old(memberId)
      ensures sub == old(sub) && name == old(name) && email == old(email)
    {
      if user.Some? {
        role := Some(user.value.role);
        memberId := user.value.memberId;
      }
    }
  }

  /** The session object returned to pages and API routes. */
  class Session {
    var user: SessionUser

    /** next-auth's default session: name and e-mail from the token. */
    constructor FromToken(token: JwtToken)
      ensures user == SessionUser(None, token.name, token.email, None, None)
    {
      user := SessionUser(None, token.name, token.email, None, None);
    }

    /** The `session` callback: id, role and member id come from the token. */
    method SessionCallback(token: JwtToken)
      modifies this
      ensures user == old(user).(id := token.sub, role := token.role, memberId := token.memberId)
    {
      user := user.(id := token.sub, role := token.role, memberId := token.memberId);
    }
  }

  /** A complete sign-in: the token is built and passed through the `jwt`
      callback, and the session is built from it through the `session` callback.
      The session then carries the user's id, role and member id. */
  method SignInSession(u: AuthUser) returns (s: Session)
    ensures s.user == SessionUser(Some(u.id), Some(u.name), Some(u.email), Some(u.role), u.memberId)
  {
    var t := new JwtToken.SignIn(u);
    t.JwtCallback(Some(u));
    s := new Session.FromToken(t);
    s.SessionCallback(t);
  }

  /** A later request reuses the token: the `jwt` callback runs without a user,
      and the session still carries what was set at sign-in. */
  method LaterRequest(u: AuthUser) returns (s: Session)
    ensures s.user.role == Some(u.role) && s.user.memberId == u.memberId && s.user.id == Some(u.id)
  {
    var t := new JwtToken.SignIn(u);
    t.JwtCallback(Some(u));
    t.JwtCallback(None);
    s := new Session.FromToken(t);
    s.SessionCallback(t);
  }
}
