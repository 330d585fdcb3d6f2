/** The admin poster API (app/api/admin/posters/route.ts): list all posters,
    and create one with defaults for the optional fields. */
module PostersApi {
  import opened Common
  import opened Schema
  import opened Seqs
  import Fields
  import Gates
  import Auth
  import Tables

  datatype PosterBody = PosterBody(
    title: Json, description: Json, imageUrl: Json, linkUrl: Json, displayOrder: Json, isActive: Json)

  /** `orderBy: { displayOrder: 'asc' }`; ties are left in the database's order. */
  predicate OrderLe(a: Poster, b: Poster)
  {
    a.displayOrder <= b.displayOrder
  }

  lemma OrderLeIsPreorder()
    ensures TotalPreorder(OrderLe)
  {
  }

  /** `isActive !== undefined ? isActive : true`: only an absent field defaults;
      an explicit null is sent on and refused by the boolean column. */
  function ActiveFlag(v: Json): (r: Result<bool>)
    ensures v.Undefined? ==> r == Ok(true)
    ensures v.Bool? ==> r == Ok(v.b)
    ensures !(v.Undefined? || v.Bool?) ==> r.Err?
  {
    match v
    case Undefined => Ok(true)
    case Bool(b) => Ok(b)
    case _ => Err(Fields.Rejected)
  }

  /** The row `prisma.poster.create` is given, built from the body. */
  function NewPoster(id: nat, b: PosterBody): (r: Result<Poster>)
    // built exactly when every field has a type its column accepts
    ensures r.Ok? <==> && b.title.Str? && b.imageUrl.Str?
                       && Fields.TextOrNull(b.description).Ok? && Fields.TextOrNull(b.linkUrl).Ok?
                       && Fields.IntOrZero(b.displayOrder).Ok? && ActiveFlag(b.isActive).Ok?
    ensures r.Ok? ==> r.value.id == id && b.title == Str(r.value.title) && b.imageUrl == Str(r.value.imageUrl)
    // `|| null`: an empty description or link is null
    ensures r.Ok? ==> Fields.TextOrNull(b.description) == Ok(r.value.description)
    ensures r.Ok? ==> Fields.TextOrNull(b.linkUrl) == Ok(r.value.linkUrl)
    // `|| 0`: every falsy order is 0
    ensures r.Ok? && !Truthy(b.displayOrder) ==> r.value.displayOrder == 0
    ensures r.Ok? && Truthy(b.displayOrder) ==> b.displayOrder == Num(r.value.displayOrder)
    ensures r.Ok? ==> ActiveFlag(b.isActive) == Ok(r.value.isActive)
  {
    match (Fields.RequiredText(b.title), Fields.TextOrNull(b.description), Fields.RequiredText(b.imageUrl),
           Fields.TextOrNull(b.linkUrl), Fields.IntOrZero(b.displayOrder), ActiveFlag(b.isActive))
    case (Ok(t), Ok(d), Ok(i), Ok(l), Ok(o), Ok(a)) => Ok(Poster(id, t, d, i, l, o, a))
    case _ => Err(Fields.Rejected)
  }

  /** `GET /api/admin/posters`: every poster, ascending by display order. */
  function Get(user: Option<Auth.SessionUser>, rows: seq<Poster>, dbUp: bool): (r: Tables.Reply<Poster>)
    ensures !Gates.TwoRoleGate(user) ==> r == Tables.Unauthorized()
    ensures Gates.TwoRoleGate(user) && !dbUp ==> r.status == 500
    ensures Gates.TwoRoleGate(user) && dbUp ==>
              r.status == 200 && multiset(r.rows) == multiset(rows) && SortedBy(r.rows, OrderLe)
  {
    if !Gates.TwoRoleGate(user) then Tables.Unauthorized()
    else if !dbUp then Tables.Failure("Failed to fetch posters")
    else
      OrderLeIsPreorder();
      SortBySorted(rows, OrderLe);
      Tables.Reply(200, SortBy(rows, OrderLe), None, None)
  }

  /** `POST /api/admin/posters`. `body` None is a body that is not JSON. */
  method Post(user: Option<Auth.SessionUser>, body: Option<PosterBody>, table: Tables.Table<Poster>, fail: bool)
    returns (r: Tables.Reply<Poster>)
    modifies table
    ensures !Gates.TwoRoleGate(user) ==> r == Tables.Unauthorized()
    ensures Gates.TwoRoleGate(user) && body.Some? && !(Truthy(body.value.title) && Truthy(body.value.imageUrl)) ==>
              r == Tables.Reply(400, [], None, Some("Title and image are required"))
    ensures r.status == 201 <==> table.rows != old(table.rows)
    ensures r.status != 201 ==> table.rows == old(table.rows)
    ensures r.status == 201 ==>
              && Gates.TwoRoleGate(user) && body.Some? && NewPoster(old(table.nextId), body.value).Ok?
              && r.created == Some(NewPoster(old(table.nextId), body.value).value)
              && table.rows == old(table.rows) + [r.created.value]
    // a permitted, complete body is created unless the row cannot be built or the write fails
    ensures Gates.TwoRoleGate(user) && body.Some? && Truthy(body.value.title) && Truthy(body.value.imageUrl) ==>
              r.status == if NewPoster(old(table.nextId), body.value).Ok? && !fail then 201 else 500
    ensures Gates.TwoRoleGate(user) && body.None? ==> r.status == 500
    ensures r.status in {201, 400, 401, 500}
  {
    if !Gates.TwoRoleGate(user) {
      return Tables.Unauthorized();
    }
    if body.None? {
      return Tables.Failure("Failed to create poster");
    }
    var b := body.value;
    if !Truthy(b.title) || !Truthy(b.imageUrl) {
      return Tables.Reply(400, [], None, Some("Title and image are required"));
    }
    var row := NewPoster(table.nextId, b);
    if row.Err? {
      return Tables.Failure("Failed to create poster");
    }
    var built := row.value;
    var created := table.Insert(id => built, fail);
    if created.Err? {
      return Tables.Failure("Failed to create poster");
    }
    r := Tables.Reply(201, [], Some(created.value), None);
  }

  /** Defaults apply only to what is missing: an explicit `isActive: false` is
      kept, while an explicit null (which `??` would have defaulted) is refused. */
  lemma ActiveDefaultOnlyWhenAbsent(title: string, url: string)
    requires title != "" && url != ""
    ensures NewPoster(1, PosterBody(Str(title), Undefined, Str(url), Undefined, Undefined, Undefined)).Ok?
    ensures NewPoster(1, PosterBody(Str(title), Undefined, Str(url), Undefined, Undefined, Undefined)).value
         == Poster(1, title, None, url, None, 0, true)
    ensures NewPoster(1, PosterBody(Str(title), Str(""), Str(url), Str(""), Num(0), Bool(false))).value
         == Poster(1, title, None, url, None, 0, false)
    ensures NewPoster(1, PosterBody(Str(title), Undefined, Str(url), Undefined, Undefined, Null)).Err?
  {
  }
}
