/** A database table that handlers only append to, and the shape of an admin
    API reply. */
module Tables {
  import opened Common

  /** An admin API reply: a status, a listed page of rows or one created row,
      and an error message. */
  datatype Reply<T> = Reply(status: nat, rows: seq<T>, created: Option<T>, error: Option<string>)

  function Unauthorized<T>(): (r: Reply<T>)
    ensures r.status == 401 && r.rows == [] && r.created.None?
  {
    Reply(401, [], None, Some("Unauthorized"))
  }

  function Failure<T>(message: string): (r: Reply<T>)
    ensures r.status == 500 && r.created.None? && r.error == Some(message)
  {
    Reply(500, [], None, Some(message))
  }

  /** Rows with ids handed out in increasing order. `create` builds the row
      from the id the database assigns. */
  class Table<T> {
    var rows: seq<T>
    var nextId: nat

    constructor ()
      ensures rows == [] && nextId == 1
    {
      rows := [];
      nextId := 1;
    }

    /** `prisma.<table>.create`: appends the row, or changes nothing when the
        database refuses the write. */
    method Insert(build: nat -> T, fail: bool) returns (r: Result<T>)
      modifies this
      ensures fail ==> r.Err? && rows == old(rows) && nextId == old(nextId)
      ensures !fail ==> r == Ok(build(old(nextId))) && rows == old(rows) + [r.value] && nextId == old(nextId) + 1
    {
      if fail {
        return Err("create failed");
      }
      var row := build(nextId);
      rows := rows + [row];
      nextId := nextId + 1;
      r := Ok(row);
    }
  }
}
