/** The admin member API (app/api/admin/members/route.ts): both admin roles may
    list members, only the Super Admin may create one. */
module MembersApi {
  import opened Common
  import opened Schema
  import opened Seqs
  import Fields
  import Gates
  import Auth
  import Tables

  /** The body fields that reach the modelled member columns. */
  datatype MemberBody = MemberBody(
    firstName: Json, lastName: Json, email: Json, phonePrimary: Json, city: Json,
    nativePlace: Json, businessName: Json, businessCategory: Json,
    membershipTypeId: Json, isActive: Json)

  /** `orderBy: [{ isActive: 'desc' }, { firstName: 'asc' }, { lastName: 'asc' }]`,
      with text compared by character code. Members equal on all three keys are
      left in the database's order. */
  predicate MemberLe(a: DirectoryMember, b: DirectoryMember)
  {
    if a.isActive != b.isActive then a.isActive
    else if a.firstName != b.firstName then LexLe(a.firstName, b.firstName)
    else LexLe(a.lastName, b.lastName)
  }

  lemma MemberLeIsPreorder()
    ensures TotalPreorder(MemberLe)
  {
    forall a, b
      ensures MemberLe(a, b) || MemberLe(b, a)
    {
      LexLeTotal(a.firstName, b.firstName);
      LexLeTotal(a.lastName, b.lastName);
    }
    forall a, b, c | MemberLe(a, b) && MemberLe(b, c)
      ensures MemberLe(a, c)
    {
      if a.isActive == b.isActive == c.isActive {
        if a.firstName != b.firstName && b.firstName != c.firstName {
          LexLeTrans(a.firstName, b.firstName, c.firstName);
          if a.firstName == c.firstName {
            LexLeAntisym(a.firstName, b.firstName);
          }
        } else if a.firstName == b.firstName == c.firstName {
          LexLeTrans(a.lastName, b.lastName, c.lastName);
        }
      }
    }
  }

  /** In the listing every active member comes before every inactive one. */
  lemma ActiveFirst(s: seq<DirectoryMember>, i: int, j: int)
    requires SortedBy(s, MemberLe)
    requires 0 <= i < |s| && 0 <= j < |s| && s[i].isActive && !s[j].isActive
    ensures i < j
  {
  }

  /** `GET /api/admin/members`. */
  function Get(user: Option<Auth.SessionUser>, rows: seq<DirectoryMember>, dbUp: bool): (r: Tables.Reply<DirectoryMember>)
    ensures !Gates.TwoRoleGate(user) ==> r == Tables.Unauthorized()
    ensures Gates.TwoRoleGate(user) && !dbUp ==> r.status == 500
    ensures Gates.TwoRoleGate(user) && dbUp ==>
              r.status == 200 && multiset(r.rows) == multiset(rows) && SortedBy(r.rows, MemberLe)
  {
    if !Gates.TwoRoleGate(user) then Tables.Unauthorized()
    else if !dbUp then Tables.Failure("Failed to fetch members")
    else
      MemberLeIsPreorder();
      SortBySorted(rows, MemberLe);
      Tables.Reply(200, SortBy(rows, MemberLe), None, None)
  }

  /** The row `prisma.member.create` is given. `types` maps the membership
      types' ids to their names; an unknown id breaks the foreign key. */
  function NewMember(id: nat, b: MemberBody, types: map<int, string>): (r: Result<DirectoryMember>)
    // built exactly when every field has a type its column accepts and the type id exists
    ensures r.Ok? <==> && Coalesce(b.isActive, Bool(true)).Bool?
                       && b.membershipTypeId.Num? && b.membershipTypeId.n in types
                       && b.firstName.Str? && b.lastName.Str? && b.phonePrimary.Str?
                       && Fields.OptionalText(b.email).Ok? && Fields.OptionalText(b.city).Ok?
                       && Fields.OptionalText(b.nativePlace).Ok? && Fields.OptionalText(b.businessName).Ok?
                       && Fields.OptionalText(b.businessCategory).Ok?
    ensures r.Ok? ==> r.value.id == id && b.firstName == Str(r.value.firstName) && b.lastName == Str(r.value.lastName)
    ensures r.Ok? ==> b.phonePrimary == Str(r.value.phonePrimary)
    ensures r.Ok? ==> && Fields.OptionalText(b.email) == Ok(r.value.email)
                      && Fields.OptionalText(b.city) == Ok(r.value.city)
                      && Fields.OptionalText(b.nativePlace) == Ok(r.value.nativePlace)
                      && Fields.OptionalText(b.businessName) == Ok(r.value.businessName)
                      && Fields.OptionalText(b.businessCategory) == Ok(r.value.businessCategory)
    ensures r.Ok? ==> b.membershipTypeId.Num? && b.membershipTypeId.n in types
                      && r.value.membershipType == types[b.membershipTypeId.n]
    // `data.isActive ?? true`
    ensures r.Ok? ==> (r.value.isActive <==> !(b.isActive == Bool(false)))
    ensures r.Ok? && (b.isActive.Undefined? || b.isActive.Null?) ==> r.value.isActive
  {
    var active := Coalesce(b.isActive, Bool(true));
    if !active.Bool? then Err(Fields.Rejected)
    else if !(b.membershipTypeId.Num? && b.membershipTypeId.n in types) then Err(Fields.Rejected)
    else
      match (Fields.RequiredText(b.firstName), Fields.RequiredText(b.lastName), Fields.OptionalText(b.email),
             Fields.RequiredText(b.phonePrimary), Fields.OptionalText(b.city), Fields.OptionalText(b.nativePlace),
             Fields.OptionalText(b.businessName), Fields.OptionalText(b.businessCategory))
      case (Ok(f), Ok(l), Ok(e), Ok(p), Ok(c), Ok(n), Ok(bn), Ok(bc)) =>
        Ok(DirectoryMember(id, f, l, e, p, c, n, bn, bc, types[b.membershipTypeId.n], active.b))
      case _ => Err(Fields.Rejected)
  }

  /** `POST /api/admin/members`: Super Admin only; a created member is answered with 200. */
  method Post(user: Option<Auth.SessionUser>, body: Option<MemberBody>, types: map<int, string>,
              table: Tables.Table<DirectoryMember>, fail: bool)
    returns (r: Tables.Reply<DirectoryMember>)
    modifies table
    ensures !Gates.SuperAdminGate(user) ==> r == Tables.Unauthorized() && table.rows == old(table.rows)
    ensures r.status == 200 <==> table.rows != old(table.rows)
    ensures r.status != 200 ==> table.rows == old(table.rows)
    ensures r.status == 200 ==>
              && Gates.SuperAdminGate(user) && body.Some? && NewMember(old(table.nextId), body.value, types).Ok?
              && r.created == Some(NewMember(old(table.nextId), body.value, types).value)
              && table.rows == old(table.rows) + [r.created.value]
    // a Super Admin's storable body is created unless the write fails
    ensures Gates.SuperAdminGate(user) ==>
              r.status == if body.Some? && NewMember(old(table.nextId), body.value, types).Ok? && !fail then 200 else 500
    ensures r.status in {200, 401, 500}
  {
    if !Gates.SuperAdminGate(user) {
      return Tables.Unauthorized();
    }
    if body.None? {
      return Tables.Failure("Failed to create member");
    }
    var row := NewMember(table.nextId, body.value, types);
    if row.Err? {
      return Tables.Failure("Failed to create member");
    }
    var built := row.value;
    var created := table.Insert(id => built, fail);
    if created.Err? {
      return Tables.Failure("Failed to create member");
    }
    r := Tables.Reply(200, [], Some(created.value), None);
  }

  /** A Committee Admin may list members but not create one. */
  lemma CommitteeAdminReadOnly(rows: seq<DirectoryMember>)
    ensures Get(Some(Gates.WithRole(RoleCommitteeAdmin)), rows, true).status == 200
    ensures !Gates.SuperAdminGate(Some(Gates.WithRole(RoleCommitteeAdmin)))
  {
  }
}
