// The writer locks of a Codex home: internal/session/locks.go.

module Locks {
  import opened Model
  import opened Format

  const WRITER_DIRECTORY := "thread-writer-locks"
  const COORDINATION := "thread-writer-locks/.coordination.lock"

  function LockPath(id: string): string {
    WRITER_DIRECTORY + "/" + id + ".lock"
  }

  lemma LockPathsDiffer(a: string, b: string)
    ensures LockPath(a) == LockPath(b) ==> a == b
    ensures ParseID(a).Some? ==> LockPath(a) != COORDINATION
  {
    var d := WRITER_DIRECTORY + "/";
    if LockPath(a) == LockPath(b) {
      assert |a| == |b|;
      assert LockPath(a)[|d|..|d| + |a|] == a;
      assert LockPath(b)[|d|..|d| + |b|] == b;
    }
    if ParseID(a).Some? {
      assert |LockPath(a)| == |d| + 36 + 5;
    }
  }

  /** The kernel's exclusive file locks: who holds which lock file. */
  class LockTable {
    var holders: map<string, nat>

    constructor ()
      ensures holders == map[]
    {
      holders := map[];
    }

    /** flock with LOCK_EX and LOCK_NB. */
    method TryLock(path: string, owner: nat) returns (r: Result<()>)
      modifies this
      ensures r == if path in old(holders) then Err(Busy) else Ok(())
      ensures holders == if r.Ok? then old(holders)[path := owner] else old(holders)
    {
      if path in holders {
        return Err(Busy);
      }
      holders := holders[path := owner];
      return Ok(());
    }

    /** Closing the descriptor. */
    method Unlock(path: string)
      modifies this
      ensures holders == old(holders) - {path}
    {
      holders := holders - {path};
    }
  }

  function Elements(ids: seq<string>): (r: set<string>)
    ensures forall id :: id in r <==> id in ids
  {
    set id | id in ids
  }

  /** The ids whose locks a guard would have to take. */
  function Missing(ids: seq<string>, files: set<string>): (r: set<string>)
    ensures forall id :: id in r <==> id in ids && id !in files
  {
    set id | id in ids && id !in files
  }

  /** Every one of these ids is an identity nobody holds the lock of. */
  predicate Available(holders: map<string, nat>, ids: set<string>) {
    forall id | id in ids :: ParseID(id).Some? && LockPath(id) !in holders
  }

  function Paths(ids: set<string>): (r: set<string>)
    ensures forall id | id in ids :: LockPath(id) in r
    ensures forall p | p in r :: exists id | id in ids :: p == LockPath(id)
  {
    set id | id in ids :: LockPath(id)
  }

  /** The table with these ids locked by the owner as well. */
  function With(holders: map<string, nat>, ids: set<string>, owner: nat): (r: map<string, nat>)
    ensures forall p :: p in r <==> p in holders || p in Paths(ids)
    ensures forall p | p in r :: r[p] == if p in Paths(ids) then owner else holders[p]
  {
    map p | p in holders.Keys + Paths(ids) :: if p in Paths(ids) then owner else holders[p]
  }

  lemma WithOneMore(holders: map<string, nat>, ids: set<string>, owner: nat, id: string)
    ensures With(holders, ids, owner)[LockPath(id) := owner] == With(holders, ids + {id}, owner)
  {
    hide LockPath;
    assert forall p :: p in Paths(ids + {id}) <==> p in Paths(ids) || p == LockPath(id);
  }

  lemma WithNone(holders: map<string, nat>, owner: nat)
    ensures With(holders, {}, owner) == holders
  {
  }

  lemma Unheld(holders: map<string, nat>, ids: set<string>, id: string, owner: nat)
    ensures LockPath(id) in With(holders, ids, owner) <==> LockPath(id) in holders || id in ids
  {
    hide LockPath;
    if LockPath(id) in Paths(ids) {
      var other :| other in ids && LockPath(id) == LockPath(other);
      LockPathsDiffer(id, other);
    }
  }

  /** Destination guards of one publication; `files` are the ids whose locks it holds. */
  class WriterGuards {
    const table: LockTable
    const owner: nat
    var files: set<string>

    constructor (table: LockTable, owner: nat)
      ensures this.table == table && this.owner == owner && files == {}
    {
      this.table, this.owner, files := table, owner, {};
    }

    /** acquire: under the coordination lock, take every missing lock or stop at the first that cannot be had. It
        succeeds exactly when nothing is missing, or coordination and every missing lock are free; whatever it has
        taken is recorded, was free before, and is all that changes. */
    method Acquire(ids: seq<string>) returns (r: Result<()>)
      modifies `files, table
      ensures old(files) <= files <= old(files) + Elements(ids)
      ensures table.holders == With(old(table.holders), files - old(files), owner)
      ensures Available(old(table.holders), files - old(files))
      ensures r.Ok? ==> files == old(files) + Elements(ids)
      ensures r.Ok? <==>
                Missing(ids, old(files)) == {} ||
                (COORDINATION !in old(table.holders) && Available(old(table.holders), Missing(ids, old(files))))
    {
      hide ParseID, LockPath, COORDINATION, Available;
      ghost var start, had := table.holders, files;
      var pending: seq<string> := [];
      for i := 0 to |ids|
        invariant files == had
        invariant forall id :: id in pending <==> id in ids[..i] && id !in files
      {
        if ids[i] !in files {
          pending := pending + [ids[i]];
        }
      }
      assert ids[..|ids|] == ids;
      WithNone(start, owner);
      NoneAvailable(start);
      if pending == [] {
        assert files - had == {};
        return Ok(());
      }
      assert pending[0] in Missing(ids, had);
      var coordination := table.TryLock(COORDINATION, owner);
      if coordination.Err? {
        assert files - had == {};
        return Err(coordination.error);
      }
      r := TakeAll(pending, start);
      table.Unlock(COORDINATION);
      CoordinationBack(start, files - had, owner);
      SameMissing(ids, pending, had);
    }

    /** The loop of acquire. */
    method TakeAll(pending: seq<string>, ghost start: map<string, nat>) returns (r: Result<()>)
      requires table.holders == start[COORDINATION := owner] && COORDINATION !in start
      requires forall id | id in pending :: id !in files
      modifies `files, table
      ensures old(files) <= files <= old(files) + Elements(pending)
      ensures table.holders == With(start, files - old(files), owner)[COORDINATION := owner]
      ensures Available(start, files - old(files))
      ensures r.Ok? ==> files == old(files) + Elements(pending)
      ensures r.Ok? <==> Available(start, Elements(pending))
    {
      hide ParseID, LockPath, COORDINATION, Paths;
      ghost var had := files;
      WithNone(start, owner);
      assert files - had == {};
      for i := 0 to |pending|
        invariant had <= files <= had + Elements(pending) && files - had == Elements(pending[..i])
        invariant table.holders == With(start, files - had, owner)[COORDINATION := owner]
        invariant Available(start, files - had)
      {
        var id := pending[i];
        assert pending[..i + 1] == pending[..i] + [id];
        assert id in pending;
        if id in files {
          assert files - had == Elements(pending[..i + 1]);
          continue;
        }
        if ParseID(id).None? {
          return Err(InvalidId);
        }
        LockPathsDiffer(id, id);
        Unheld(start, files - had, id, owner);
        var locked := table.TryLock(LockPath(id), owner);
        if locked.Err? {
          return Err(locked.error);
        }
        WithOneMore(start, files - had, owner, id);
        assert (files + {id}) - had == (files - had) + {id};
        files := files + {id};
      }
      assert pending[..|pending|] == pending;
      return Ok(());
    }

    /** Close: every recorded lock is released. */
    method Close()
      modifies `files, table
      ensures files == {} && table.holders == old(table.holders) - Paths(old(files))
    {
      hide LockPath;
      ghost var had, start := files, table.holders;
      assert Paths(had - files) == {};
      while files != {}
        invariant files <= had && table.holders == start - Paths(had - files)
        decreases |files|
      {
        var id :| id in files;
        assert had - (files - {id}) == (had - files) + {id};
        assert Paths((had - files) + {id}) == Paths(had - files) + {LockPath(id)};
        table.Unlock(LockPath(id));
        files := files - {id};
      }
      assert had - files == had;
    }
  }

  lemma NoneAvailable(holders: map<string, nat>)
    ensures Available(holders, {})
  {
  }

  lemma SameMissing(ids: seq<string>, pending: seq<string>, had: set<string>)
    requires forall id :: id in pending <==> id in ids && id !in had
    ensures Elements(pending) == Missing(ids, had)
    ensures had + Elements(pending) == had + Elements(ids)
  {
  }

  lemma CoordinationBack(start: map<string, nat>, ids: set<string>, owner: nat)
    requires COORDINATION !in start && Available(start, ids)
    ensures With(start, ids, owner)[COORDINATION := owner] - {COORDINATION} == With(start, ids, owner)
  {
    hide LockPath, COORDINATION, ParseID;
    if COORDINATION in Paths(ids) {
      var id :| id in ids && LockPath(id) == COORDINATION;
      LockPathsDiffer(id, id);
    }
  }

  /** Releasing what was free before gives the table back. */
  lemma Released(start: map<string, nat>, ids: set<string>, owner: nat)
    requires Available(start, ids)
    ensures With(start, ids, owner) - Paths(ids) == start
  {
    hide LockPath, ParseID;
    forall p | p in Paths(ids)
      ensures p !in start
    {
      var id :| id in ids && p == LockPath(id);
    }
  }

  /** A failed acquisition followed by Close leaves the lock table as it was; so does a successful one. */
  method AcquireAndClose(table: LockTable, owner: nat, ids: seq<string>) returns (r: Result<()>)
    modifies table
    ensures table.holders == old(table.holders)
  {
    hide LockPath, ParseID;
    var guards := new WriterGuards(table, owner);
    r := guards.Acquire(ids);
    assert guards.files - {} == guards.files;
    Released(old(table.holders), guards.files, owner);
    guards.Close();
  }
}
