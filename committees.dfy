/** The committee table (lib/committees.ts) and the admin committee API that
    uses it (app/api/admin/committees/route.ts). Query failures are the
    parameter `dbUp`; a write that the database refuses is `fail`. */
module Committees {
  import opened Common
  import opened Schema
  import opened Seqs
  import Fields
  import Gates
  import Auth
  import Tables

  /** A row of the committee membership join table. */
  datatype CommitteeMemberRow = CommitteeMemberRow(id: nat, committeeId: nat, memberId: nat)

  /** The argument of `createCommittee`. */
  datatype NewCommittee = NewCommittee(
    name: string, description: Option<string>, sessionYear: string,
    committeeImageUrl: Option<string>, posterImageUrl: Option<string>,
    isActive: Option<bool>, displayOrder: Option<int>)

  /** The argument of `updateCommittee`: only the fields present are written. */
  datatype CommitteePatch = CommitteePatch(
    name: Option<string>, description: Option<string>, sessionYear: Option<string>,
    committeeImageUrl: Option<string>, posterImageUrl: Option<string>,
    isActive: Option<bool>, displayOrder: Option<int>)

  const NoChange := CommitteePatch(None, None, None, None, None, None, None)

  /** `orderBy: { displayOrder: 'asc' }`. The order among equal display orders
      is the database's and is left open. */
  predicate OrderLe(a: Committee, b: Committee)
  {
    a.displayOrder <= b.displayOrder
  }

  lemma OrderLeIsPreorder()
    ensures TotalPreorder(OrderLe)
  {
  }

  /** `where: { isActive: true, posterImageUrl: { not: null } }`. */
  predicate HasPoster(c: Committee)
  {
    c.isActive && c.posterImageUrl.Some?
  }

  /** `getActiveCommittees`: the active committees with a poster, ascending by
      display order; a failed query gives []. */
  function ActiveCommittees(rows: seq<Committee>, dbUp: bool): (r: seq<Committee>)
    ensures !dbUp ==> r == []
    ensures dbUp ==> multiset(r) == multiset(Filter(rows, HasPoster)) && SortedBy(r, OrderLe)
  {
    if !dbUp then []
    else
      OrderLeIsPreorder();
      SortBySorted(Filter(rows, HasPoster), OrderLe);
      SortBy(Filter(rows, HasPoster), OrderLe)
  }

  /** `getAllCommittees`: every committee, ascending by display order; a failed query gives []. */
  function AllCommittees(rows: seq<Committee>, dbUp: bool): (r: seq<Committee>)
    ensures !dbUp ==> r == []
    ensures dbUp ==> multiset(r) == multiset(rows) && SortedBy(r, OrderLe)
  {
    if !dbUp then []
    else
      OrderLeIsPreorder();
      SortBySorted(rows, OrderLe);
      SortBy(rows, OrderLe)
  }

  predicate RowIdLe(a: CommitteeMemberRow, b: CommitteeMemberRow)
  {
    a.id <= b.id
  }

  lemma RowIdLeIsPreorder()
    ensures TotalPreorder(RowIdLe)
  {
  }

  function FindById(rows: seq<Committee>, id: nat): (r: Option<nat>)
    ensures r.Some? ==> r.value < |rows| && rows[r.value].id == id
    ensures r.None? ==> forall i :: 0 <= i < |rows| ==> rows[i].id != id
  {
    if rows == [] then None
    else if rows[|rows| - 1].id == id then Some(|rows| - 1)
    else FindById(rows[..|rows| - 1], id)
  }

  /** `getCommitteeById`: the committee with its membership rows in ascending
      row-id order; a missing id or a failed query gives null. */
  function CommitteeById(rows: seq<Committee>, memberships: seq<CommitteeMemberRow>, id: nat, dbUp: bool)
    : (r: Option<(Committee, seq<CommitteeMemberRow>)>)
    ensures r.Some? <==> dbUp && FindById(rows, id).Some?
    ensures r.Some? ==> r.value.0.id == id && r.value.0 in rows
    ensures r.Some? ==> (SortedBy(r.value.1, RowIdLe)
      && multiset(r.value.1) == multiset(Filter(memberships, (m: CommitteeMemberRow) => m.committeeId == id)))
  {
    if !dbUp then None
    else match FindById(rows, id)
      case None => None
      case Some(i) =>
        var mine := Filter(memberships, (m: CommitteeMemberRow) => m.committeeId == id);
        RowIdLeIsPreorder();
        SortBySorted(mine, RowIdLe);
        Some((rows[i], SortBy(mine, RowIdLe)))
  }

  /** The row `createCommittee` inserts: `?? true` and `?? 0` default only what is absent. */
  function NewRow(id: nat, data: NewCommittee): (c: Committee)
    ensures c.id == id && c.name == data.name && c.sessionYear == data.sessionYear
    ensures c.description == data.description
    ensures c.committeeImageUrl == data.committeeImageUrl && c.posterImageUrl == data.posterImageUrl
    ensures c.isActive <==> data.isActive != Some(false)
    ensures c.displayOrder == if data.displayOrder.Some? then data.displayOrder.value else 0
  {
    Committee(id, data.name, data.description, data.sessionYear, data.committeeImageUrl, data.posterImageUrl,
              if data.isActive.Some? then data.isActive.value else true,
              if data.displayOrder.Some? then data.displayOrder.value else 0)
  }

  /** `updateCommittee`'s effect on one row. */
  function Patch(c: Committee, p: CommitteePatch): Committee
  {
    Committee(
      c.id,
      if p.name.Some? then p.name.value else c.name,
      if p.description.Some? then p.description else c.description,
      if p.sessionYear.Some? then p.sessionYear.value else c.sessionYear,
      if p.committeeImageUrl.Some? then p.committeeImageUrl else c.committeeImageUrl,
      if p.posterImageUrl.Some? then p.posterImageUrl else c.posterImageUrl,
      if p.isActive.Some? then p.isActive.value else c.isActive,
      if p.displayOrder.Some? then p.displayOrder.value else c.displayOrder)
  }

  /** A patch writes exactly the fields it carries: an absent field keeps its
      value, a present one takes the new value, and the id never changes. */
  lemma PatchWritesPresentFields(c: Committee, p: CommitteePatch)
    ensures Patch(c, p).id == c.id
    ensures p.name.None? ==> Patch(c, p).name == c.name
    ensures p.name.Some? ==> Patch(c, p).name == p.name.value
    ensures p.description.None? ==> Patch(c, p).description == c.description
    ensures p.description.Some? ==> Patch(c, p).description == p.description
    ensures p.sessionYear.None? ==> Patch(c, p).sessionYear == c.sessionYear
    ensures p.committeeImageUrl.None? ==> Patch(c, p).committeeImageUrl == c.committeeImageUrl
    ensures p.posterImageUrl.None? ==> Patch(c, p).posterImageUrl == c.posterImageUrl
    ensures p.isActive.None? ==> Patch(c, p).isActive == c.isActive
    ensures p.isActive.Some? ==> Patch(c, p).isActive == p.isActive.value
    ensures p.displayOrder.None? ==> Patch(c, p).displayOrder == c.displayOrder
    ensures p.displayOrder.Some? ==> Patch(c, p).displayOrder == p.displayOrder.value
  {
  }

  /** An empty patch changes nothing, and applying a patch twice is applying it once. */
  lemma PatchLaws(c: Committee, p: CommitteePatch)
    ensures Patch(c, NoChange) == c
    ensures Patch(Patch(c, p), p) == Patch(c, p)
  {
  }

  class CommitteeTable {
    var rows: seq<Committee>
    var nextId: nat

    /** Ids are unique and below the next id to be handed out. */
    ghost predicate Valid()
      reads this
    {
      && (forall i :: 0 <= i < |rows| ==> rows[i].id < nextId)
      && (forall i, j :: 0 <= i < j < |rows| ==> rows[i].id != rows[j].id)
    }

    constructor ()
      ensures Valid() && rows == [] && nextId == 1
    {
      rows := [];
      nextId := 1;
    }

    /** `createCommittee`: inserts a row with a fresh id; a refused write is rethrown. */
    method Create(data: NewCommittee, fail: bool) returns (r: Result<Committee>)
      requires Valid()
      modifies this
      ensures Valid()
      ensures fail ==> r.Err? && rows == old(rows)
      ensures !fail ==> r == Ok(NewRow(old(nextId), data)) && rows == old(rows) + [r.value]
      ensures !fail ==> forall i :: 0 <= i < |old(rows)| ==> old(rows)[i].id != r.value.id
    {
      if fail {
        return Err("create failed");
      }
      var c := NewRow(nextId, data);
      rows := rows + [c];
      nextId := nextId + 1;
      r := Ok(c);
    }

    /** `updateCommittee`: rewrites the fields present in `patch` on the row with
        that id; a missing id is an error, and no other row changes. */
    method Update(id: nat, patch: CommitteePatch, fail: bool) returns (r: Result<Committee>)
      requires Valid()
      modifies this
      ensures Valid() && nextId == old(nextId) && |rows| == |old(rows)|
      ensures r.Ok? <==> !fail && FindById(old(rows), id).Some?
      ensures r.Err? ==> rows == old(rows)
      ensures r.Ok? ==> forall i :: 0 <= i < |rows| ==>
                rows[i] == if old(rows)[i].id == id then Patch(old(rows)[i], patch) else old(rows)[i]
      ensures r.Ok? ==> r.value.id == id && r.value in rows
    {
      var k := FindById(rows, id);
      if fail || k.None? {
        return Err("update failed");
      }
      var i := k.value;
      var c := Patch(rows[i], patch);
      rows := rows[i := c];
      r := Ok(c);
    }

    /** `deleteCommittee`: removes the row with that id and keeps the others in order. */
    method Delete(id: nat, fail: bool) returns (r: Result<Committee>)
      requires Valid()
      modifies this
      ensures Valid() && nextId == old(nextId)
      ensures r.Ok? <==> !fail && FindById(old(rows), id).Some?
      ensures r.Err? ==> rows == old(rows)
      ensures r.Ok? ==> r.value.id == id && rows == Filter(old(rows), (c: Committee) => c.id != id)
      ensures forall i :: 0 <= i < |rows| ==> rows[i].id != id || r.Err?
    {
      var k := FindById(rows, id);
      if fail || k.None? {
        return Err("delete failed");
      }
      var i := k.value;
      var gone := rows[i];
      DeleteIsFilter(rows, i);
      RemoveAtKeepsIds(rows, i, nextId);
      rows := rows[..i] + rows[i + 1..];
      r := Ok(gone);
    }
  }

  /** Cutting out the row at `i` keeps the ids unique and below `bound`, and
      leaves no row with the id cut out. */
  lemma RemoveAtKeepsIds(rows: seq<Committee>, i: nat, bound: nat)
    requires i < |rows|
    requires forall a :: 0 <= a < |rows| ==> rows[a].id < bound
    requires forall a, b :: 0 <= a < b < |rows| ==> rows[a].id != rows[b].id
    ensures var s := rows[..i] + rows[i + 1..];
            && (forall a :: 0 <= a < |s| ==> s[a].id < bound && s[a].id != rows[i].id)
            && (forall a, b :: 0 <= a < b < |s| ==> s[a].id != s[b].id)
  {
    var s := rows[..i] + rows[i + 1..];
    assert forall a :: 0 <= a < |s| ==> s[a] == rows[if a < i then a else a + 1];
  }

  /** With unique ids, cutting out the row at `i` is filtering out its id. */
  lemma DeleteIsFilter(rows: seq<Committee>, i: nat)
    requires i < |rows|
    requires forall a, b :: 0 <= a < b < |rows| ==> rows[a].id != rows[b].id
    ensures rows[..i] + rows[i + 1..] == Filter(rows, (c: Committee) => c.id != rows[i].id)
  {
    var id := rows[i].id;
    var p := (c: Committee) => c.id != id;
    forall k | 0 <= k < |rows| && k != i
      ensures p(rows[k])
    {
      if k < i { assert rows[k].id != rows[i].id; } else { assert rows[i].id != rows[k].id; }
    }
    FilterRemoveAt(rows, i, p);
  }

  // ----- The admin API -----

  /** The JSON body of `POST /api/admin/committees`. */
  datatype CommitteeBody = CommitteeBody(
    name: Json, description: Json, sessionYear: Json, committeeImageUrl: Json,
    posterImageUrl: Json, isActive: Json, displayOrder: Json)

  type Reply = Tables.Reply<Committee>

  /** The typed argument the handler passes to `createCommittee`; a field of the
      wrong type is refused by the database. */
  function ToNewCommittee(b: CommitteeBody): (r: Result<NewCommittee>)
    // built exactly when every field has a type its column accepts
    ensures r.Ok? <==> && b.name.Str? && b.sessionYear.Str?
                       && Fields.OptionalText(b.description).Ok?
                       && Fields.OptionalText(b.committeeImageUrl).Ok? && Fields.OptionalText(b.posterImageUrl).Ok?
                       && Fields.OptionalBool(b.isActive).Ok? && Fields.OptionalInt(b.displayOrder).Ok?
    ensures r.Ok? ==> b.name == Str(r.value.name) && b.sessionYear == Str(r.value.sessionYear)
    ensures r.Ok? ==> && Fields.OptionalText(b.description) == Ok(r.value.description)
                      && Fields.OptionalText(b.committeeImageUrl) == Ok(r.value.committeeImageUrl)
                      && Fields.OptionalText(b.posterImageUrl) == Ok(r.value.posterImageUrl)
    ensures r.Ok? && b.displayOrder.Num? ==> r.value.displayOrder == Some(b.displayOrder.n)
    ensures r.Ok? && b.isActive.Bool? ==> r.value.isActive == Some(b.isActive.b)
    ensures r.Ok? && (b.isActive.Undefined? || b.isActive.Null?) ==> r.value.isActive.None?
    ensures r.Ok? && (b.displayOrder.Undefined? || b.displayOrder.Null?) ==> r.value.displayOrder.None?
  {
    match (Fields.RequiredText(b.name), Fields.OptionalText(b.description), Fields.RequiredText(b.sessionYear),
           Fields.OptionalText(b.committeeImageUrl), Fields.OptionalText(b.posterImageUrl),
           Fields.OptionalBool(b.isActive), Fields.OptionalInt(b.displayOrder))
    case (Ok(n), Ok(d), Ok(y), Ok(ci), Ok(pi), Ok(a), Ok(o)) => Ok(NewCommittee(n, d, y, ci, pi, a, o))
    case _ => Err(Fields.Rejected)
  }

  /** `GET /api/admin/committees`. */
  function Get(user: Option<Auth.SessionUser>, rows: seq<Committee>, dbUp: bool): (r: Reply)
    ensures !Gates.TwoRoleGate(user) ==> r == Tables.Unauthorized()
    ensures Gates.TwoRoleGate(user) ==> r.status == 200 && r.rows == AllCommittees(rows, dbUp)
  {
    if !Gates.TwoRoleGate(user) then Tables.Unauthorized()
    else Tables.Reply(200, AllCommittees(rows, dbUp), None, None)
  }

  /** `POST /api/admin/committees`. `body` None is a body that is not JSON. */
  method Post(user: Option<Auth.SessionUser>, body: Option<CommitteeBody>, table: CommitteeTable, fail: bool)
    returns (r: Reply)
    requires table.Valid()
    modifies table
    ensures table.Valid()
    ensures !Gates.TwoRoleGate(user) ==> r == Tables.Unauthorized() && table.rows == old(table.rows)
    ensures Gates.TwoRoleGate(user) && body.Some? && !(Truthy(body.value.name) && Truthy(body.value.sessionYear)) ==>
              r.status == 400 && table.rows == old(table.rows)
    ensures r.status == 201 <==> table.rows != old(table.rows)
    ensures r.status == 201 ==>
              && Gates.TwoRoleGate(user) && body.Some? && ToNewCommittee(body.value).Ok?
              && r.created == Some(NewRow(old(table.nextId), ToNewCommittee(body.value).value))
              && table.rows == old(table.rows) + [r.created.value]
    // a permitted, complete body is created unless a field is unusable or the write fails
    ensures Gates.TwoRoleGate(user) && body.Some? && Truthy(body.value.name) && Truthy(body.value.sessionYear) ==>
              r.status == if ToNewCommittee(body.value).Ok? && !fail then 201 else 500
    ensures Gates.TwoRoleGate(user) && body.None? ==> r.status == 500
    ensures r.status in {201, 400, 401, 500}
  {
    if !Gates.TwoRoleGate(user) {
      return Tables.Unauthorized();
    }
    if body.None? {
      return Tables.Failure("Failed to create committee");
    }
    var data := body.value;
    if !Truthy(data.name) || !Truthy(data.sessionYear) {
      return Tables.Reply(400, [], None, Some("Name and session year are required"));
    }
    var input := ToNewCommittee(data);
    if input.Err? {
      return Tables.Failure("Failed to create committee");
    }
    var c := table.Create(input.value, fail);
    if c.Err? {
      return Tables.Failure("Failed to create committee");
    }
    r := Tables.Reply(201, [], Some(c.value), None);
  }

  /** An explicit `isActive: false` or `displayOrder: 0` survives creation; only
      absent (or null) fields are defaulted. */
  lemma ExplicitFalseKept(name: string, year: string)
    ensures var b := CommitteeBody(Str(name), Undefined, Str(year), Undefined, Undefined, Bool(false), Num(0));
            ToNewCommittee(b).Ok? && !NewRow(7, ToNewCommittee(b).value).isActive
            && NewRow(7, ToNewCommittee(b).value).displayOrder == 0
    ensures var b := CommitteeBody(Str(name), Undefined, Str(year), Undefined, Undefined, Undefined, Undefined);
            ToNewCommittee(b).Ok? && NewRow(7, ToNewCommittee(b).value).isActive
            && NewRow(7, ToNewCommittee(b).value).displayOrder == 0
  {
  }
}
