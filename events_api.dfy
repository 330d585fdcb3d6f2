/** The admin event API (app/api/admin/events/route.ts): list every event, and
    create one. The handler does no validation of its own: whatever the body
    holds is passed to the database, and a refusal is a 500. */
module EventsApi {
  import opened Common
  import opened Schema
  import opened Seqs
  import Fields
  import Gates
  import Auth
  import Tables

  datatype EventBody = EventBody(
    title: Json, description: Json, venue: Json, startDatetime: Json, endDatetime: Json, imageUrl: Json)

  /** `orderBy: { startDatetime: 'desc' }`. */
  predicate LatestFirst(a: Event, b: Event)
  {
    a.startDatetime >= b.startDatetime
  }

  lemma LatestFirstIsPreorder()
    ensures TotalPreorder(LatestFirst)
  {
  }

  function NewEvent(id: nat, b: EventBody, parseDate: string -> Option<int>): (r: Result<Event>)
    // built exactly when every field has a type its column accepts
    ensures r.Ok? <==> && b.title.Str? && b.description.Str? && b.venue.Str?
                       && Fields.DateField(b.startDatetime, parseDate).Ok?
                       && Fields.DateOrNull(b.endDatetime, parseDate).Ok?
                       && Fields.TextOrNull(b.imageUrl).Ok?
    ensures r.Ok? ==> r.value.id == id && b.title == Str(r.value.title) && b.venue == Str(r.value.venue)
    ensures r.Ok? ==> b.description == Str(r.value.description)
    ensures r.Ok? ==> Fields.DateField(b.startDatetime, parseDate) == Ok(r.value.startDatetime)
    // `data.endDatetime ? new Date(...) : null`, `data.imageUrl || null`
    ensures r.Ok? ==> Fields.DateOrNull(b.endDatetime, parseDate) == Ok(r.value.endDatetime)
    ensures r.Ok? ==> Fields.TextOrNull(b.imageUrl) == Ok(r.value.imageUrl)
    ensures b.startDatetime.Undefined? ==> r.Err?
  {
    match (Fields.RequiredText(b.title), Fields.RequiredText(b.description), Fields.RequiredText(b.venue),
           Fields.DateField(b.startDatetime, parseDate), Fields.DateOrNull(b.endDatetime, parseDate),
           Fields.TextOrNull(b.imageUrl))
    case (Ok(t), Ok(d), Ok(v), Ok(s), Ok(e), Ok(i)) => Ok(Event(id, t, d, v, s, e, i))
    case _ => Err(Fields.Rejected)
  }

  /** `GET /api/admin/events`: every event, latest start first. */
  function Get(user: Option<Auth.SessionUser>, rows: seq<Event>, dbUp: bool): (r: Tables.Reply<Event>)
    ensures !Gates.TwoRoleGate(user) ==> r == Tables.Unauthorized()
    ensures Gates.TwoRoleGate(user) && !dbUp ==> r.status == 500
    ensures Gates.TwoRoleGate(user) && dbUp ==>
              r.status == 200 && multiset(r.rows) == multiset(rows) && SortedBy(r.rows, LatestFirst)
  {
    if !Gates.TwoRoleGate(user) then Tables.Unauthorized()
    else if !dbUp then Tables.Failure("Failed to fetch events")
    else
      LatestFirstIsPreorder();
      SortBySorted(rows, LatestFirst);
      Tables.Reply(200, SortBy(rows, LatestFirst), None, None)
  }

  /** `POST /api/admin/events`. There is no 400: a body the database cannot
      store is answered with 500. */
  method Post(user: Option<Auth.SessionUser>, body: Option<EventBody>, parseDate: string -> Option<int>,
              table: Tables.Table<Event>, fail: bool)
    returns (r: Tables.Reply<Event>)
    modifies table
    ensures !Gates.TwoRoleGate(user) ==> r == Tables.Unauthorized() && table.rows == old(table.rows)
    ensures r.status == 200 <==> table.rows != old(table.rows)
    ensures r.status != 200 ==> table.rows == old(table.rows)
    ensures r.status == 200 ==>
              && Gates.TwoRoleGate(user) && body.Some? && NewEvent(old(table.nextId), body.value, parseDate).Ok?
              && r.created == Some(NewEvent(old(table.nextId), body.value, parseDate).value)
              && table.rows == old(table.rows) + [r.created.value]
    // a permitted, storable body is created unless the write fails
    ensures Gates.TwoRoleGate(user) ==>
              r.status == if body.Some? && NewEvent(old(table.nextId), body.value, parseDate).Ok? && !fail then 200 else 500
    ensures r.status in {200, 401, 500}
  {
    if !Gates.TwoRoleGate(user) {
      return Tables.Unauthorized();
    }
    if body.None? {
      return Tables.Failure("Failed to create event");
    }
    var row := NewEvent(table.nextId, body.value, parseDate);
    if row.Err? {
      return Tables.Failure("Failed to create event");
    }
    var built := row.value;
    var created := table.Insert(id => built, fail);
    if created.Err? {
      return Tables.Failure("Failed to create event");
    }
    r := Tables.Reply(200, [], Some(created.value), None);
  }
}
