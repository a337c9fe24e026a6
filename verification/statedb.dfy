// The state database of a home, as far as publication repairs it: internal/session/selection_update.go.

module StateDb {
  import opened Model

  /** How far native indexing has come. */
  datatype Status = Pending | Running | Complete

  datatype Row = Row(path: string, mode: string, archived: bool, archivedAt: Option<int>)

  function SelectionOf(row: Row): Selection {
    Selection(row.path, row.mode, row.archived)
  }

  type Table = map<string, Row>

  function Selected(rows: Table, id: string): Option<Selection> {
    if id in rows then Some(SelectionOf(rows[id])) else None
  }

  /** The row after promotion: COALESCE keeps an earlier archive time. */
  function Promoted(row: Row, path: string, archived: bool, modified: int): Row {
    Row(path, row.mode, archived,
      if !archived then None else if row.archivedAt.Some? then row.archivedAt else Some(modified))
  }

  /** How SQLite answers a commit; an unconfirmed one went through all the same. */
  datatype Commit = Confirmed | Refused | Unconfirmed

  /** The UPDATE's WHERE clause. */
  predicate Matches(rows: Table, id: string, expected: Selection) {
    Selected(rows, id) == Some(expected)
  }

  /** `migrated`: the newest migration is one that has been qualified, with its exact checksum. `known`: the columns,
      the primary key and every trigger of the threads table are the known ones. */
  class Database {
    var rows: Table
    var status: Status
    var reserved: bool
    const migrated: bool
    const known: bool

    constructor (rows: Table, status: Status, migrated: bool, known: bool)
      ensures this.rows == rows && this.status == status && !reserved
      ensures this.migrated == migrated && this.known == known
    {
      this.rows, this.status, reserved := rows, status, false;
      this.migrated, this.known := migrated, known;
    }

    /** validateSelectionSchema. */
    method ValidateSchema() returns (r: Result<()>)
      ensures r == if !migrated then Err(Unqualified) else if status != Complete then Err(Busy)
                   else if !known then Err(Unqualified) else Ok(())
    {
      if !migrated {
        return Err(Unqualified);
      }
      if status != Complete {
        return Err(Busy);
      }
      if !known {
        return Err(Unqualified);
      }
      return Ok(());
    }

    /** beginSelectionUpdate: take the write reservation, then see that the schema is qualified, that the row is still
        the validated one and, with `same`, that the open file is still the one at the database's path. */
    method BeginSelectionUpdate(id: string, expected: Selection, same: bool) returns (r: Result<()>)
      modifies `reserved
      ensures r.Ok? <==>
                !old(reserved) && migrated && known && status == Complete && Selected(rows, id) == Some(expected) &&
                  expected.mode == "paginated" && same
      ensures reserved == (old(reserved) || r.Ok?)
    {
      if reserved {
        return Err(Busy);
      }
      reserved := true;
      r := ValidateSchema();
      if r.Ok? {
        if id !in rows || SelectionOf(rows[id]) != expected || SelectionOf(rows[id]).mode != "paginated" {
          r := Err(Conflict);
        } else if !same {
          r := Err(Replaced);
        }
      }
      if r.Err? {
        reserved := false;
      }
    }

    /** close before finish: the transaction rolls back. */
    method Rollback()
      modifies `reserved
      ensures !reserved
    {
      reserved := false;
    }

    /** finish: the compare-and-set update between two looks at the file's identity, then the commit; the reservation
        ends either way. */
    method Finish(id: string, expected: Selection, path: string, archived: bool, modified: int, before: bool,
                  after: bool, commit: Commit)
      returns (r: Result<()>)
      requires reserved
      modifies `rows, `reserved
      ensures !reserved
      ensures r.Ok? <==> before && Matches(old(rows), id, expected) && after && commit == Confirmed
      ensures rows == if before && Matches(old(rows), id, expected) && after && commit != Refused
                      then old(rows)[id := Promoted(old(rows)[id], path, archived, modified)]
                      else old(rows)
      ensures rows != old(rows) ==>
                Selected(rows, id) == Some(Selection(path, expected.mode, archived)) &&
                (rows[id].archivedAt.Some? <==> archived) &&
                (archived && old(rows)[id].archivedAt.None? ==> rows[id].archivedAt == Some(modified)) &&
                (archived && old(rows)[id].archivedAt.Some? ==> rows[id].archivedAt == old(rows)[id].archivedAt)
    {
      reserved := false;
      if !before {
        return Err(Replaced);
      }
      if !Matches(rows, id, expected) {
        return Err(Conflict);
      }
      var updated := rows[id := Promoted(rows[id], path, archived, modified)];
      if !after {
        return Err(Replaced);
      }
      match commit
      case Confirmed =>
        rows := updated;
        r := Ok(());
      case Refused =>
        r := Err(Interrupted);
      case Unconfirmed =>
        rows := updated;
        r := Err(Interrupted);
    }
  }
}
