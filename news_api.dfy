/** The admin news API (app/api/admin/news/route.ts): list every article,
    drafts included, and create one on behalf of the signed-in user. */
module NewsApi {
  import opened Common
  import opened Schema
  import opened Seqs
  import Fields
  import Gates
  import Auth
  import Tables

  datatype NewsBody = NewsBody(title: Json, slug: Json, content: Json, imageUrl: Json, publishedAt: Json)

  /** `orderBy: { createdAt: 'desc' }`; ties are left in the database's order. */
  predicate NewestFirst(a: NewsArticle, b: NewsArticle)
  {
    a.createdAt >= b.createdAt
  }

  lemma NewestFirstIsPreorder()
    ensures TotalPreorder(NewestFirst)
  {
  }

  /** `parseInt(session.user.id)` as a user key: NaN, or an id with no user
      behind it, breaks the foreign key. */
  function AuthorId(sessionId: Option<string>, userIds: set<nat>): (r: Result<nat>)
    ensures r.Ok? ==> sessionId.Some? && ParseInt(sessionId.value) == Some(r.value as int) && r.value in userIds
    ensures (sessionId.Some? && ParseInt(sessionId.value).Some? && ParseInt(sessionId.value).value >= 0
             && ParseInt(sessionId.value).value as nat in userIds) ==> r.Ok?
  {
    if sessionId.None? then Err(Fields.Rejected)
    else match ParseInt(sessionId.value)
      case None => Err(Fields.Rejected)
      case Some(n) => if n >= 0 && n as nat in userIds then Ok(n as nat) else Err(Fields.Rejected)
  }

  /** The row `prisma.newsArticle.create` is given. The slug is stored exactly as sent. */
  function NewArticle(id: nat, now: int, b: NewsBody, authorId: nat, parseDate: string -> Option<int>)
    : (r: Result<NewsArticle>)
    // built exactly when every field has a type its column accepts
    ensures r.Ok? <==> && b.title.Str? && b.slug.Str? && b.content.Str?
                       && Fields.TextOrNull(b.imageUrl).Ok? && Fields.DateOrNull(b.publishedAt, parseDate).Ok?
    ensures r.Ok? ==> r.value.id == id && r.value.createdAt == now && r.value.authorId == authorId
    ensures r.Ok? ==> b.title == Str(r.value.title) && b.slug == Str(r.value.slug) && b.content == Str(r.value.content)
    // `data.imageUrl || null`, `data.publishedAt ? new Date(...) : null`
    ensures r.Ok? ==> Fields.TextOrNull(b.imageUrl) == Ok(r.value.imageUrl)
    ensures r.Ok? ==> Fields.DateOrNull(b.publishedAt, parseDate) == Ok(r.value.publishedAt)
    ensures r.Ok? && !Truthy(b.publishedAt) ==> r.value.publishedAt.None?
  {
    match (Fields.RequiredText(b.title), Fields.RequiredText(b.slug), Fields.RequiredText(b.content),
           Fields.TextOrNull(b.imageUrl), Fields.DateOrNull(b.publishedAt, parseDate))
    case (Ok(t), Ok(s), Ok(c), Ok(i), Ok(p)) => Ok(NewsArticle(id, t, s, c, i, p, now, authorId))
    case _ => Err(Fields.Rejected)
  }

  /** `GET /api/admin/news`: every article, drafts included, newest first. */
  function Get(user: Option<Auth.SessionUser>, rows: seq<NewsArticle>, dbUp: bool): (r: Tables.Reply<NewsArticle>)
    ensures !Gates.TwoRoleGate(user) ==> r == Tables.Unauthorized()
    ensures Gates.TwoRoleGate(user) && !dbUp ==> r.status == 500
    ensures Gates.TwoRoleGate(user) && dbUp ==>
              r.status == 200 && multiset(r.rows) == multiset(rows) && SortedBy(r.rows, NewestFirst)
  {
    if !Gates.TwoRoleGate(user) then Tables.Unauthorized()
    else if !dbUp then Tables.Failure("Failed to fetch news articles")
    else
      NewestFirstIsPreorder();
      SortBySorted(rows, NewestFirst);
      Tables.Reply(200, SortBy(rows, NewestFirst), None, None)
  }

  /** `POST /api/admin/news`. `now` is the database's creation time. */
  method Post(user: Option<Auth.SessionUser>, body: Option<NewsBody>, userIds: set<nat>, now: int,
              parseDate: string -> Option<int>, table: Tables.Table<NewsArticle>, fail: bool)
    returns (r: Tables.Reply<NewsArticle>)
    modifies table
    ensures !Gates.TwoRoleGate(user) ==> r == Tables.Unauthorized() && table.rows == old(table.rows)
    ensures r.status == 200 <==> table.rows != old(table.rows)
    ensures r.status != 200 ==> table.rows == old(table.rows)
    ensures r.status == 200 ==>
              && Gates.TwoRoleGate(user) && body.Some? && AuthorId(user.value.id, userIds).Ok?
              && var row := NewArticle(old(table.nextId), now, body.value, AuthorId(user.value.id, userIds).value, parseDate);
                 row.Ok? && r.created == Some(row.value) && table.rows == old(table.rows) + [row.value]
    // a permitted request from a known author with a storable body is created unless the write fails
    ensures Gates.TwoRoleGate(user) ==>
              r.status == if && body.Some? && AuthorId(user.value.id, userIds).Ok?
                             && NewArticle(old(table.nextId), now, body.value, AuthorId(user.value.id, userIds).value, parseDate).Ok?
                             && !fail
                          then 200 else 500
    ensures r.status in {200, 401, 500}
  {
    if !Gates.TwoRoleGate(user) {
      return Tables.Unauthorized();
    }
    if body.None? {
      return Tables.Failure("Failed to create news article");
    }
    var author := AuthorId(user.value.id, userIds);
    if author.Err? {
      return Tables.Failure("Failed to create news article");
    }
    var row := NewArticle(table.nextId, now, body.value, author.value, parseDate);
    if row.Err? {
      return Tables.Failure("Failed to create news article");
    }
    var built := row.value;
    var created := table.Insert(id => built, fail);
    if created.Err? {
      return Tables.Failure("Failed to create news article");
    }
    r := Tables.Reply(200, [], Some(created.value), None);
  }

  /** A session built by sign-in carries the decimal text of the user's key, so
      the article's author is that user. */
  lemma AuthorIsSignedInUser(userId: nat, userIds: set<nat>)
    requires userId in userIds
    ensures AuthorId(Some(NatToDecimal(userId)), userIds) == Ok(userId)
  {
    ParseDecimal(userId);
  }
}
