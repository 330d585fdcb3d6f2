/** Self-registration (app/api/auth/register/route.ts): a chain of checks, then
    a user row and a member row. Password hashing is the parameter `hash`, the
    random verification token is `token`, the clock is `now` (ms). */
module Register {
  import opened Common
  import opened Schema
  import Email
  import Auth

  datatype RegisterBody = RegisterBody(
    name: Json, email: Json, password: Json, phone: Json,
    firmName: Json, business: Json, locality: Json, gotra: Json, profileImageUrl: Json)

  /** How a database write ends. */
  datatype Fault = NoFault | UniqueViolation | OtherFault

  /** The `user` summary of a successful reply. */
  datatype NewUser = NewUser(id: nat, name: string, email: string, role: string)

  datatype Reply = Reply(status: nat, error: Option<string>, user: Option<NewUser>)

  const MinPasswordLength := 6
  /** Verification links stay valid for 24 hours. */
  const VerificationWindow := 24 * 60 * 60 * 1000

  const Duplicate := Reply(409, Some("User with this email already exists"), None)
  const ServerError := Reply(500, Some("Internal server error during registration"), None)

  /** `emailRegex.test(email)`: the value is converted to text first, and the
      text of a number or a boolean has no '@'. */
  predicate EmailFieldValid(v: Json)
  {
    v.Str? && Email.ValidEmail(v.s)
  }

  /** `password.length < 6`: counted in UTF-16 code units; a value that is
      not text has no length and passes. */
  predicate ShortPassword(v: Json)
  {
    v.Str? && Utf16Length(v.s) < MinPasswordLength
  }

  /** The checks that answer before anything is written, in source order.
      None means every check passed. */
  function Precheck(b: RegisterBody, users: seq<User>, dbUp: bool): (r: Option<Reply>)
    ensures !(Truthy(b.name) && Truthy(b.email) && Truthy(b.password)) ==>
              r == Some(Reply(400, Some("Name, email, and password are required"), None))
    ensures Truthy(b.name) && Truthy(b.email) && Truthy(b.password) && !EmailFieldValid(b.email) ==>
              r == Some(Reply(400, Some("Invalid email format"), None))
    ensures Truthy(b.name) && Truthy(b.email) && Truthy(b.password) && EmailFieldValid(b.email)
            && ShortPassword(b.password) ==>
              r == Some(Reply(400, Some("Password must be at least 6 characters long"), None))
    // the lookup comes last: a failing query is 500, a stored address 409
    ensures Truthy(b.name) && Truthy(b.email) && Truthy(b.password) && EmailFieldValid(b.email)
            && !ShortPassword(b.password) ==>
              r == if !dbUp then Some(ServerError)
                   else if FindUserByEmail(users, Lower(b.email.s)).Some? then Some(Duplicate)
                   else None
    ensures r.None? ==> Truthy(b.name) && EmailFieldValid(b.email) && Truthy(b.password) && dbUp
                        && FindUserByEmail(users, Lower(b.email.s)).None?
                        && !ShortPassword(b.password)
    ensures r.Some? ==> r.value.status in {400, 409, 500} && r.value.user.None?
  {
    if !Truthy(b.name) || !Truthy(b.email) || !Truthy(b.password) then
      Some(Reply(400, Some("Name, email, and password are required"), None))
    else if !EmailFieldValid(b.email) then
      Some(Reply(400, Some("Invalid email format"), None))
    else if ShortPassword(b.password) then
      Some(Reply(400, Some("Password must be at least 6 characters long"), None))
    else if !dbUp then Some(ServerError)
    else if FindUserByEmail(users, Lower(b.email.s)).Some? then
      Some(Duplicate)
    else None
  }

  /** `v?.trim() || null`: absent and blank values are null; a value that is
      neither null nor text has no `trim` and throws. */
  function TrimmedOrNull(v: Json): (r: Result<Option<string>>)
    ensures v.Undefined? || v.Null? ==> r == Ok(None)
    ensures v.Str? ==> r == Ok(TrimOrNull(Some(v.s)))
    ensures r.Ok? ==> v.Undefined? || v.Null? || v.Str?
  {
    match v
    case Undefined => Ok(None)
    case Null => Ok(None)
    case Str(s) => Ok(TrimOrNull(Some(s)))
    case _ => Err("trim is not a function")
  }

  /** The user row that `prisma.user.create` is given. */
  function UserRow(id: nat, b: RegisterBody, hashed: string, token: string, now: int): (r: Result<User>)
    requires b.email.Str?
    ensures r.Ok? <==> b.name.Str? && TrimmedOrNull(b.phone).Ok?
    ensures r.Ok? ==> && r.value.id == id
                      && r.value.name == Trim(b.name.s)
                      && r.value.email == Trim(Lower(b.email.s))
                      && r.value.password == hashed
                      && r.value.phone == TrimmedOrNull(b.phone).value
                      && r.value.role == RoleMember && r.value.status == "Active"
                      && !r.value.isEmailVerified
                      && r.value.emailVerificationToken == Some(token)
                      && r.value.emailVerificationExpires == Some(now + VerificationWindow)
  {
    if !b.name.Str? then Err("trim is not a function")
    else match TrimmedOrNull(b.phone)
      case Err(e) => Err(e)
      case Ok(phone) =>
        Ok(User(id, Trim(b.name.s), Trim(Lower(b.email.s)), hashed, phone, RoleMember, "Active", false,
                Some(token), Some(now + VerificationWindow)))
  }

  /** The member row that `prisma.member.create` is given. */
  function MemberRow(id: nat, userId: nat, b: RegisterBody, now: int): (r: Result<Member>)
    ensures r.Ok? ==> && r.value.id == id && r.value.userId == userId
                      && TrimmedOrNull(b.firmName) == Ok(r.value.businessName)
                      && TrimmedOrNull(b.business) == Ok(r.value.businessCategory)
                      && TrimmedOrNull(b.locality) == Ok(r.value.locality)
                      && TrimmedOrNull(b.gotra) == Ok(r.value.gotra)
                      && r.value.membershipType == "Regular" && r.value.status == "Active"
                      && r.value.joinedDate == now && !r.value.isApproved
    // `profileImageUrl || null`: kept as sent, not trimmed
    ensures r.Ok? && b.profileImageUrl.Str? && b.profileImageUrl.s != "" ==> r.value.profileImageUrl == Some(b.profileImageUrl.s)
    ensures r.Ok? && !Truthy(b.profileImageUrl) ==> r.value.profileImageUrl.None?
  {
    match (TrimmedOrNull(b.firmName), TrimmedOrNull(b.business), TrimmedOrNull(b.locality),
           TrimmedOrNull(b.gotra), (if !Truthy(b.profileImageUrl) then Ok(None)
                                    else if b.profileImageUrl.Str? then Ok(Some(b.profileImageUrl.s))
                                    else Err("invalid value")))
    case (Ok(f), Ok(c), Ok(l), Ok(g), Ok(p)) => Ok(Member(id, userId, f, c, l, g, p, "Regular", "Active", now, false))
    case _ => Err("invalid value")
  }

  ghost predicate UniqueEmails(users: seq<User>)
  {
    forall i, j :: 0 <= i < j < |users| ==> users[i].email != users[j].email
  }

  lemma AppendFresh(users: seq<User>, u: User)
    requires UniqueEmails(users)
    requires forall i :: 0 <= i < |users| ==> users[i].email != u.email
    ensures UniqueEmails(users + [u])
  {
  }

  /** The reply once every check has passed: the user insert, then the
      member insert. A unique-constraint failure answers 409, any other
      failure (a field whose `trim` throws, a failing write) 500. */
  function InsertReply(u: Result<User>, m: Result<Member>, userFault: Fault, memberFault: Fault): (r: Reply)
    ensures r.status == 201 <==> u.Ok? && userFault == NoFault && m.Ok? && memberFault == NoFault
    ensures r.status == 201 ==> r == Reply(201, None, Some(NewUser(u.value.id, u.value.name, u.value.email, u.value.role)))
    ensures r == Duplicate <==>
              u.Ok? && (userFault == UniqueViolation || (userFault == NoFault && m.Ok? && memberFault == UniqueViolation))
    ensures r.status != 201 && r != Duplicate ==> r == ServerError
  {
    if u.Err? || userFault.OtherFault? then ServerError
    else if userFault.UniqueViolation? then Duplicate
    else if m.Err? || memberFault.OtherFault? then ServerError
    else if memberFault.UniqueViolation? then Duplicate
    else Reply(201, None, Some(NewUser(u.value.id, u.value.name, u.value.email, u.value.role)))
  }

  /** The user and member tables. */
  class Store {
    var users: seq<User>
    var members: seq<Member>
    var nextUserId: nat
    var nextMemberId: nat

    /** E-mail addresses are unique, as the column's constraint demands. */
    ghost predicate Valid()
      reads this
    {
      UniqueEmails(users)
    }

    constructor ()
      ensures Valid() && users == [] && members == []
    {
      users := [];
      members := [];
      nextUserId := 1;
      nextMemberId := 1;
    }

    /** `POST /api/auth/register`. `body` None is a body that is not JSON;
        `dbUp` false is a failing duplicate lookup; `userFault` and
        `memberFault` say how the two inserts end. */
    method Post(body: Option<RegisterBody>, hash: string -> string, token: string, now: int,
                dbUp: bool, userFault: Fault, memberFault: Fault)
      returns (r: Reply)
      requires Valid()
      modifies this
      ensures Valid()
      ensures body.None? ==> r == ServerError && users == old(users) && members == old(members)
      ensures body.Some? && Precheck(body.value, old(users), dbUp).Some? ==>
                r == Precheck(body.value, old(users), dbUp).value && users == old(users) && members == old(members)
      // bcrypt refuses a password that is not text
      ensures body.Some? && Precheck(body.value, old(users), dbUp).None? && !body.value.password.Str? ==>
                r == ServerError && users == old(users) && members == old(members)
      ensures body.Some? && Precheck(body.value, old(users), dbUp).None? && body.value.password.Str? ==>
                var u := UserRow(old(nextUserId), body.value, hash(body.value.password.s), token, now);
                var m := MemberRow(old(nextMemberId), old(nextUserId), body.value, now);
                && r == InsertReply(u, m, userFault, memberFault)
                && users == (if u.Ok? && userFault.NoFault? then old(users) + [u.value] else old(users))
                && members == (if r.status == 201 then old(members) + [m.value] else old(members))
                && nextUserId == (if u.Ok? && userFault.NoFault? then old(nextUserId) + 1 else old(nextUserId))
                && nextMemberId == (if r.status == 201 then old(nextMemberId) + 1 else old(nextMemberId))
      ensures (body.None? || Precheck(body.value, old(users), dbUp).Some? || !body.value.password.Str?) ==>
                nextUserId == old(nextUserId) && nextMemberId == old(nextMemberId)
      ensures r.status in {201, 400, 409, 500}
    {
      if body.None? {
        return ServerError;
      }
      var b := body.value;
      var early := Precheck(b, users, dbUp);
      if early.Some? {
        return early.value;
      }
      if !b.password.Str? {
        return ServerError;                       // bcrypt refuses a value that is not text
      }
      r := Insert(b, hash(b.password.s), token, now, userFault, memberFault);
    }

    /** The two inserts, once every check has passed. A member insert that
        fails leaves the user row behind. */
    method Insert(b: RegisterBody, hashed: string, token: string, now: int, userFault: Fault, memberFault: Fault)
      returns (r: Reply)
      requires Valid() && EmailFieldValid(b.email) && FindUserByEmail(users, Lower(b.email.s)).None?
      modifies this
      ensures Valid()
      ensures var u := UserRow(old(nextUserId), b, hashed, token, now);
              var m := MemberRow(old(nextMemberId), old(nextUserId), b, now);
              && r == InsertReply(u, m, userFault, memberFault)
              && users == (if u.Ok? && userFault.NoFault? then old(users) + [u.value] else old(users))
              && members == (if r.status == 201 then old(members) + [m.value] else old(members))
              && nextUserId == (if u.Ok? && userFault.NoFault? then old(nextUserId) + 1 else old(nextUserId))
              && nextMemberId == (if r.status == 201 then old(nextMemberId) + 1 else old(nextMemberId))
    {
      var row := UserRow(nextUserId, b, hashed, token, now);
      var m := MemberRow(nextMemberId, nextUserId, b, now);
      if row.Err? || !userFault.NoFault? {
        r := if row.Ok? && userFault.UniqueViolation? then Duplicate else ServerError;
        return;
      }
      assert FindUserByEmail(users, row.value.email).None? by {
        Email.ValidEmailNoSpace(b.email.s);
      }
      AddUser(row.value);
      r := AddMember(row.value, m, memberFault);
    }

    /** The user insert: the new row's address is not yet stored. */
    method AddUser(u: User)
      requires Valid() && FindUserByEmail(users, u.email).None?
      modifies this
      ensures Valid()
      ensures users == old(users) + [u] && nextUserId == old(nextUserId) + 1
      ensures members == old(members) && nextMemberId == old(nextMemberId)
    {
      AppendFresh(users, u);
      users := users + [u];
      nextUserId := nextUserId + 1;
    }

    /** The member insert, after the user row has been written. */
    method AddMember(u: User, m: Result<Member>, memberFault: Fault) returns (r: Reply)
      modifies this
      ensures users == old(users) && nextUserId == old(nextUserId)
      ensures r == InsertReply(Ok(u), m, NoFault, memberFault)
      ensures members == (if r.status == 201 then old(members) + [m.value] else old(members))
      ensures nextMemberId == if r.status == 201 then old(nextMemberId) + 1 else old(nextMemberId)
    {
      if m.Err? || !memberFault.NoFault? {
        r := if m.Ok? && memberFault.UniqueViolation? then Duplicate else ServerError;
        return;
      }
      members := members + [m.value];
      nextMemberId := nextMemberId + 1;
      r := Reply(201, None, Some(NewUser(u.id, u.name, u.email, u.role)));
    }
  }

  /** The duplicate check looks up `email.toLowerCase()` while the row stores
      `email.toLowerCase().trim()`. For an accepted address they are the same
      key, so a new row never repeats a stored address. */
  lemma NewEmailIsFresh(users: seq<User>, email: string)
    requires Email.ValidEmail(email)
    requires FindUserByEmail(users, Lower(email)).None?
    ensures Trim(Lower(email)) == Lower(email)
    ensures forall i :: 0 <= i < |users| ==> users[i].email != Trim(Lower(email))
  {
    Email.ValidEmailNoSpace(email);
  }

  /** Six characters are enough and five are not. */
  lemma PasswordBoundary(name: string, email: string)
    requires name != "" && Email.ValidEmail(email)
    ensures Precheck(RegisterBody(Str(name), Str(email), Str("abcdef"), Undefined, Undefined, Undefined, Undefined, Undefined, Undefined), [], true).None?
    ensures Precheck(RegisterBody(Str(name), Str(email), Str("abcde"), Undefined, Undefined, Undefined, Undefined, Undefined, Undefined), [], true)
         == Some(Reply(400, Some("Password must be at least 6 characters long"), None))
  {
    assert Truthy(Str(name)) && Truthy(Str(email)) && EmailFieldValid(Str(email));
    assert Truthy(Str("abcdef")) && Utf16Length("abcdef") == 6;
    assert Truthy(Str("abcde")) && Utf16Length("abcde") == 5;
  }

  /** A name of nothing but spaces passes the required-field check and is stored as "". */
  lemma BlankNameStoredEmpty(email: string, hashed: string, token: string, now: int)
    requires Email.ValidEmail(email)
    ensures var b := RegisterBody(Str("   "), Str(email), Str("secret1"), Undefined, Undefined, Undefined, Undefined, Undefined, Undefined);
            Precheck(b, [], true).None? && UserRow(1, b, hashed, token, now).Ok? && UserRow(1, b, hashed, token, now).value.name == ""
  {
    assert AllSpace("   ");
    assert Truthy(Str("   ")) && Truthy(Str(email)) && EmailFieldValid(Str(email));
    assert Truthy(Str("secret1")) && |"secret1"| == 7;
  }

  /** An address registered in capitals is found at sign-in by its lower-case form. */
  lemma RegisteredAddressSignsIn(b: RegisterBody, hashed: string, token: string, now: int, typed: string)
    requires EmailFieldValid(b.email)
    requires UserRow(1, b, hashed, token, now).Ok?
    requires Auth.LookupKey(typed) == Auth.LookupKey(b.email.s)
    ensures FindUserByEmail([UserRow(1, b, hashed, token, now).value], Auth.LookupKey(typed)).Some?
  {
    Email.ValidEmailNoSpace(b.email.s);
  }
}
