/** E-mail verification (app/api/auth/verify-email/route.ts): a token finds the
    first user holding it with an expiry still in the future, and that user is
    marked verified with token and expiry cleared. POST answers with a status,
    GET with a redirect; both make the same change. */
module VerifyEmail {
  import opened Common
  import opened Schema

  /** The `findFirst` condition: the stored token is this one and its expiry
      is strictly later than now. */
  predicate Matches(u: User, token: string, now: int)
  {
    u.emailVerificationToken == Some(token)
    && u.emailVerificationExpires.Some? && u.emailVerificationExpires.value > now
  }

  /** The `update` of a matched user. */
  function Verified(u: User): (r: User)
    ensures r.isEmailVerified && r.emailVerificationToken.None? && r.emailVerificationExpires.None?
    ensures r.(isEmailVerified := u.isEmailVerified, emailVerificationToken := u.emailVerificationToken,
               emailVerificationExpires := u.emailVerificationExpires) == u
  {
    u.(isEmailVerified := true, emailVerificationToken := None, emailVerificationExpires := None)
  }

  /** The row `findFirst` returns: the first match in table order. */
  function FirstMatch(users: seq<User>, token: string, now: int): (r: Option<nat>)
    ensures r.Some? ==> r.value < |users| && Matches(users[r.value], token, now)
    ensures r.Some? ==> forall j :: 0 <= j < r.value ==> !Matches(users[j], token, now)
    ensures r.None? ==> forall j :: 0 <= j < |users| ==> !Matches(users[j], token, now)
    decreases |users|
  {
    if users == [] then None
    else if Matches(users[0], token, now) then Some(0)
    else
      var rest := FirstMatch(users[1..], token, now);
      if rest.None? then None else Some(rest.value + 1)
  }

  /** How a verification attempt ends. */
  datatype Outcome = MissingToken | NoMatch | Done | Failed

  /** The POST status for each outcome. */
  function Status(o: Outcome): nat
  {
    match o
    case MissingToken => 400
    case NoMatch => 400
    case Done => 200
    case Failed => 500
  }

  /** The GET answer for each outcome: a missing token is a JSON 400, the rest redirect. */
  function Redirect(o: Outcome): Option<string>
  {
    match o
    case MissingToken => None
    case NoMatch => Some("/login?error=invalid-token")
    case Done => Some("/login?success=email-verified")
    case Failed => Some("/login?error=verification-failed")
  }

  /** The user table. */
  class UserTable {
    var users: seq<User>

    constructor (users: seq<User>)
      ensures this.users == users
    {
      this.users := users;
    }

    /** The shared body of POST and GET once the token is known to be present
        text. `dbUp` false is a failing query or update. */
    method Verify(token: string, now: int, dbUp: bool) returns (o: Outcome)
      modifies this
      ensures o in {NoMatch, Done, Failed}
      ensures !dbUp ==> o == Failed && users == old(users)
      ensures dbUp && FirstMatch(old(users), token, now).None? ==> o == NoMatch && users == old(users)
      ensures dbUp && FirstMatch(old(users), token, now).Some? ==>
                var k := FirstMatch(old(users), token, now).value;
                o == Done && users == old(users)[k := Verified(old(users)[k])]
    {
      if !dbUp {
        return Failed;
      }
      var i := 0;
      while i < |users| && !Matches(users[i], token, now)
        invariant 0 <= i <= |users|
        invariant forall j :: 0 <= j < i ==> !Matches(users[j], token, now)
      {
        i := i + 1;
      }
      if i == |users| {
        FirstMatchNone(users, token, now);
        return NoMatch;
      }
      FirstMatchIs(users, token, now, i);
      users := users[i := Verified(users[i])];
      o := Done;
    }

    /** `POST /api/auth/verify-email` with body `{ token }`. `body` is the
        `token` field, or None when the body is not JSON (or is JSON null,
        whose destructuring throws); both are answered with 500. A token that
        is not text is refused by the query and answered with 500 too. */
    method Post(body: Option<Json>, now: int, dbUp: bool) returns (status: nat)
      modifies this
      ensures body.None? ==> status == 500 && users == old(users)
      ensures body.Some? && !Truthy(body.value) ==> status == 400 && users == old(users)
      ensures body.Some? && Truthy(body.value) && !body.value.Str? ==> status == 500 && users == old(users)
      ensures body.Some? && body.value.Str? && body.value.s != "" ==>
                status == Status(Apply(old(users), body.value.s, now, dbUp).0)
                && users == Apply(old(users), body.value.s, now, dbUp).1
    {
      if body.None? {
        return Status(Failed);                    // `request.json()` or the destructuring threw
      }
      var token := body.value;
      if !Truthy(token) {
        return Status(MissingToken);
      }
      if !token.Str? {
        return Status(Failed);
      }
      var o := Verify(token.s, now, dbUp);
      status := Status(o);
    }

    /** `GET /api/auth/verify-email?token=...`: the same change, answered by redirect. */
    method Get(token: Option<string>, now: int, dbUp: bool) returns (redirect: Option<string>)
      modifies this
      ensures token.None? || token == Some("") ==> redirect.None? && users == old(users)
      ensures token.Some? && token.value != "" ==>
                redirect == Redirect(Apply(old(users), token.value, now, dbUp).0)
                && users == Apply(old(users), token.value, now, dbUp).1
    {
      if token.None? || token.value == "" {
        return Redirect(MissingToken);
      }
      var o := Verify(token.value, now, dbUp);
      redirect := Redirect(o);
    }
  }

  /** What `Verify` does to a table, as a value: the outcome and the new rows. */
  function Apply(users: seq<User>, token: string, now: int, dbUp: bool): (Outcome, seq<User>)
  {
    if !dbUp then (Failed, users)
    else match FirstMatch(users, token, now)
      case None => (NoMatch, users)
      case Some(k) => (Done, users[k := Verified(users[k])])
  }

  lemma {:induction false} FirstMatchNone(users: seq<User>, token: string, now: int)
    requires forall j :: 0 <= j < |users| ==> !Matches(users[j], token, now)
    ensures FirstMatch(users, token, now).None?
    decreases |users|
  {
    if users != [] {
      FirstMatchNone(users[1..], token, now);
    }
  }

  lemma {:induction false} FirstMatchIs(users: seq<User>, token: string, now: int, i: nat)
    requires i < |users| && Matches(users[i], token, now)
    requires forall j :: 0 <= j < i ==> !Matches(users[j], token, now)
    ensures FirstMatch(users, token, now) == Some(i)
    decreases i
  {
    if i > 0 {
      FirstMatchIs(users[1..], token, now, i - 1);
    }
  }

  /** A token expiring exactly now is already refused. */
  lemma ExpiryIsStrict(u: User, token: string, now: int)
    requires u.emailVerificationToken == Some(token) && u.emailVerificationExpires == Some(now)
    ensures !Matches(u, token, now)
  {
  }

  /** Only the matched user changes, and only in its three verification fields. */
  lemma OnlyMatchedUserChanges(users: seq<User>, token: string, now: int)
    requires Apply(users, token, now, true).0 == Done
    ensures var k := FirstMatch(users, token, now).value;
            var after := Apply(users, token, now, true).1;
            && |after| == |users|
            && (forall j :: 0 <= j < |users| && j != k ==> after[j] == users[j])
            && after[k].id == users[k].id && after[k].email == users[k].email
            && after[k].password == users[k].password && after[k].role == users[k].role
            && after[k].isEmailVerified
  {
  }

  /** Verification is one-shot: when no other user holds the same token,
      repeating it at any later time finds nothing, because the token was cleared. */
  lemma {:induction false} OneShot(users: seq<User>, token: string, now: int, later: int)
    requires Apply(users, token, now, true).0 == Done
    requires forall i, j :: 0 <= i < j < |users| ==>
               !(users[i].emailVerificationToken == Some(token) && users[j].emailVerificationToken == Some(token))
    ensures Apply(Apply(users, token, now, true).1, token, later, true).0 == NoMatch
  {
    var k := FirstMatch(users, token, now).value;
    var after := Apply(users, token, now, true).1;
    forall j | 0 <= j < |after|
      ensures !Matches(after[j], token, later)
    {
      if j != k {
        assert after[j] == users[j];
        if j > k {
          assert !(users[k].emailVerificationToken == Some(token) && users[j].emailVerificationToken == Some(token));
        }
      }
    }
    FirstMatchNone(after, token, later);
  }

  /** POST and GET make the same change to the table. */
  lemma PostAndGetAgree(users: seq<User>, token: string, now: int, dbUp: bool)
    requires token != ""
    ensures Status(Apply(users, token, now, dbUp).0) == 200 <==>
            Redirect(Apply(users, token, now, dbUp).0) == Some("/login?success=email-verified")
  {
  }
}
