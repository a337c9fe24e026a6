// Garbage collection of abandoned staging directories: removeStaging, recoverStaging and recoverStage of
// internal/session/stage_recovery.go.

module Staging {
  import opened Model
  import opened Format
  import opened Slots

  /** A directory entry: its inode and what the removal protocol looks at. */
  datatype Entry = Entry(inode: nat, regular: bool, empty: bool, links: nat)

  /** `ours`: a private directory of this user. */
  datatype Directory = Directory(ours: bool, entries: map<string, Entry>)

  /** Names that the protocol itself puts into a stage. */
  predicate Familiar(name: string) {
    name == LEASE || StagingSlot(name)
  }

  predicate LeaseIntact(e: Entry) {
    e.regular && e.empty && e.links == 1
  }

  predicate EntryValid(name: string, e: Entry) {
    Familiar(name) && e.regular && (name == LEASE ==> LeaseIntact(e))
  }

  /** removeStaging's validation of the whole flat layout: only familiar regular files, an intact lease, and no slot
      without a lease. */
  predicate Removable(entries: map<string, Entry>) {
    (forall name | name in entries :: EntryValid(name, entries[name])) &&
    ((exists name | name in entries :: name != LEASE) ==> LEASE in entries)
  }

  /** What recovery reaps: a private stage of this user whose lease nobody holds and whose layout is valid. */
  predicate Reapable(d: Directory, locked: set<nat>) {
    d.ours && (LEASE in d.entries ==> d.entries[LEASE].inode !in locked) && Removable(d.entries)
  }

  function Keep(stages: map<string, Directory>, locked: set<nat>, names: set<string>): (r: map<string, Directory>)
    ensures forall n :: n in r <==> n in stages && !(n in names && StagingName(n) && Reapable(stages[n], locked))
    ensures forall n | n in r :: r[n] == stages[n]
  {
    map n | n in stages && !(n in names && StagingName(n) && Reapable(stages[n], locked)) :: stages[n]
  }

  /** What no removal may touch: something that is not a regular file, a name that is neither the lease's nor a slot's,
      a lease with content or with another name, a payload without a lease. */
  predicate Untouchable(entries: map<string, Entry>) {
    (exists name | name in entries :: !entries[name].regular || (name != ".lease" && !StagingSlot(name))) ||
    (".lease" in entries && (!entries[".lease"].empty || entries[".lease"].links != 1)) ||
    (".lease" !in entries && entries != map[])
  }

  lemma UntouchableExactly(entries: map<string, Entry>)
    ensures Untouchable(entries) <==> !Removable(entries)
  {
    hide StagingSlot;
    if entries != map[] {
      var name :| name in entries;
    }
  }

  /** A stage recovery keeps: not ours, leased by somebody, or untouchable. */
  predicate MustStay(d: Directory, locked: set<nat>) {
    !d.ours || (".lease" in d.entries && d.entries[".lease"].inode in locked) || Untouchable(d.entries)
  }

  lemma ReapableExactly(d: Directory, locked: set<nat>)
    ensures Reapable(d, locked) <==> !MustStay(d, locked)
  {
    hide Removable, Untouchable;
    UntouchableExactly(d.entries);
  }

  /** The part of a home recovery works on: live rollouts and staging directories naming inodes, the bytes of the
      inodes, and the lease inodes living processes have locked. */
  class Storage {
    var live: map<string, nat>
    var stages: map<string, Directory>
    var data: map<nat, Bytes>
    var locked: set<nat>
    var nextInode: nat

    constructor (live: map<string, nat>, stages: map<string, Directory>, data: map<nat, Bytes>, locked: set<nat>,
                 nextInode: nat)
      ensures this.live == live && this.stages == stages && this.data == data && this.locked == locked
      ensures this.nextInode == nextInode
    {
      this.live, this.stages, this.data, this.locked := live, stages, data, locked;
      this.nextInode := nextInode;
    }

    /** Some name still refers to the inode. */
    ghost predicate Linked(inode: nat)
      reads this
    {
      (exists p | p in live :: live[p] == inode) ||
      (exists n, name | n in stages && name in stages[n].entries :: stages[n].entries[name].inode == inode)
    }

    /** unlinkat: the name goes; the bytes go with the last name. */
    method Unlink(n: string, name: string)
      requires n in stages && name in stages[n].entries
      modifies `stages, `data
      ensures stages == old(stages)[n := old(stages)[n].(entries := old(stages)[n].entries - {name})]
      ensures forall i | i in old(data) && Linked(i) :: i in data && data[i] == old(data)[i]
    {
      var inode := stages[n].entries[name].inode;
      stages := stages[n := stages[n].(entries := stages[n].entries - {name})];
      if (forall p | p in live :: live[p] != inode) &&
         (forall m | m in stages :: forall e | e in stages[m].entries :: stages[m].entries[e].inode != inode) {
        data := data - {inode};
      }
    }

    /** removeStaging's first pass: nothing is unlinked before the whole layout has been seen. */
    method ValidateLayout(n: string) returns (r: Result<bool>)
      requires n in stages
      ensures r.Ok? <==> Removable(stages[n].entries)
      ensures r.Ok? ==> (r.value <==> LEASE in stages[n].entries)
    {
      hide StagingSlot;
      var entries := stages[n].entries;
      var hasLease, slots := false, false;
      var left := entries.Keys;
      while left != {}
        invariant left <= entries.Keys
        invariant forall name | name in entries && name !in left :: EntryValid(name, entries[name])
        invariant hasLease <==> LEASE in entries && LEASE !in left
        invariant slots <==> exists name | name in entries && name !in left :: name != LEASE
        decreases |left|
      {
        var name :| name in left;
        if name != LEASE && !StagingSlot(name) {
          return Err(Conflict);
        }
        if !entries[name].regular {
          return Err(Conflict);
        }
        left := left - {name};
        if name == LEASE {
          hasLease := true;
          if !LeaseIntact(entries[name]) {
            return Err(Conflict);
          }
        } else {
          slots := true;
        }
      }
      if slots && !hasLease {
        return Err(Conflict);
      }
      return Ok(hasLease);
    }

    /** removeStaging. The caller has closed the lease and holds the coordinator. */
    method RemoveStaging(n: string) returns (r: Result<()>)
      requires n in stages
      modifies `stages, `data
      ensures r.Ok? <==> Removable(old(stages)[n].entries)
      ensures stages == if r.Ok? then old(stages) - {n} else old(stages)
      ensures Untouchable(old(stages)[n].entries) ==> r.Err? && stages == old(stages) && data == old(data)
      ensures !Untouchable(old(stages)[n].entries) ==> r.Ok?
      ensures forall p | p in live && live[p] in old(data) :: live[p] in data && data[live[p]] == old(data)[live[p]]
    {
      hide StagingSlot, Removable, Untouchable;
      UntouchableExactly(stages[n].entries);
      var valid := ValidateLayout(n);
      if valid.Err? {
        return Err(valid.error);
      }
      RemoveSlots(n);
      if valid.value {
        Unlink(n, LEASE);
      }
      stages := stages - {n};
      return Ok(());
    }

    /** Every payload goes before the lease does. */
    method RemoveSlots(n: string)
      requires n in stages
      modifies `stages, `data
      ensures n in stages && stages - {n} == old(stages) - {n}
      ensures stages[n].entries == old(stages)[n].entries - (old(stages)[n].entries.Keys - {LEASE})
      ensures forall p | p in live && live[p] in old(data) :: live[p] in data && data[live[p]] == old(data)[live[p]]
    {
      ghost var others := stages - {n};
      var left := stages[n].entries.Keys - {LEASE};
      while left != {}
        invariant n in stages && stages - {n} == others
        invariant left <= stages[n].entries.Keys - {LEASE}
        invariant stages[n].entries == old(stages)[n].entries - ((old(stages)[n].entries.Keys - {LEASE}) - left)
        invariant forall p | p in live && live[p] in old(data) :: live[p] in data && data[live[p]] == old(data)[live[p]]
        decreases |left|
      {
        var name :| name in left;
        Unlink(n, name);
        left := left - {name};
      }
    }

    /** recoverStage: skip what is not ours or still leased, then try to remove; unfamiliar layouts are preserved. */
    method RecoverStage(n: string)
      requires n in stages
      modifies `stages, `data
      ensures stages == if Reapable(old(stages)[n], locked) then old(stages) - {n} else old(stages)
      ensures forall p | p in live && live[p] in old(data) :: live[p] in data && data[live[p]] == old(data)[live[p]]
    {
      hide StagingSlot;
      var d := stages[n];
      if !d.ours {
        return;
      }
      if LEASE in d.entries {
        if !LeaseIntact(d.entries[LEASE]) {
          return;
        }
        if d.entries[LEASE].inode in locked {
          return;
        }
      }
      var _ := RemoveStaging(n);
    }

    /** recoverStaging: one pass under the coordinator leaves exactly the stages that may not be reaped, and every live
        rollout with its bytes. */
    method RecoverStaging()
      modifies `stages, `data
      ensures stages == Keep(old(stages), locked, old(stages).Keys)
      ensures forall n | n in old(stages) :: n in stages <==> !StagingName(n) || MustStay(old(stages)[n], locked)
      ensures forall p | p in live && live[p] in old(data) :: live[p] in data && data[live[p]] == old(data)[live[p]]
    {
      hide Reapable, StagingName, MustStay;
      ghost var start := stages;
      var left := stages.Keys;
      while left != {}
        invariant left <= start.Keys && stages == Keep(start, locked, start.Keys - left)
        invariant forall p | p in live && live[p] in old(data) :: live[p] in data && data[live[p]] == old(data)[live[p]]
        decreases |left|
      {
        var n :| n in left;
        assert n in stages && stages[n] == start[n];
        if StagingName(n) {
          RecoverStage(n);
        }
        assert start.Keys - (left - {n}) == (start.Keys - left) + {n};
        left := left - {n};
      }
      forall n | n in start
        ensures Reapable(start[n], locked) <==> !MustStay(start[n], locked)
      {
        ReapableExactly(start[n], locked);
      }
    }

    /** staging, under the coordinator: recover, make a directory under a fresh name, create the lease and lock it. A
        name that is taken is refused. The new stage cannot be reaped. */
    method Reserve(nonce: Bytes) returns (r: Result<string>)
      modifies this
      ensures var kept := Keep(old(stages), old(locked), old(stages).Keys);
              var name := STAGING_PREFIX + HexEncode(nonce);
              if name in kept then r == Err(Exists) && stages == kept && locked == old(locked)
              else r == Ok(name) && locked == old(locked) + {old(nextInode)} &&
                   stages == kept[name := Directory(true, map[LEASE := Entry(old(nextInode), true, true, 1)])]
      ensures r.Ok? ==> !Reapable(stages[r.value], locked) && nextInode == old(nextInode) + 1
      ensures live == old(live) && forall p | p in live && live[p] in old(data) && live[p] != old(nextInode) ::
                live[p] in data && data[live[p]] == old(data)[live[p]]
    {
      hide Keep, Removable, HexEncode;
      RecoverStaging();
      var name := STAGING_PREFIX + HexEncode(nonce);
      if name in stages {
        return Err(Exists);
      }
      stages := stages[name := Directory(true, map[])];
      var lease := Entry(nextInode, true, true, 1);
      data := data[nextInode := []];
      stages := stages[name := Directory(true, map[LEASE := lease])];
      locked := locked + {lease.inode};
      nextInode := nextInode + 1;
      return Ok(name);
    }

    /** Incoming.Close: with the coordinator, the lease is closed and the stage removed if its layout is valid; without
        it only the lease is closed, which leaves the stage to recovery. Live rollouts keep their bytes. */
    method Release(n: string, coordinated: bool) returns (r: Result<()>)
      requires n in stages && LEASE in stages[n].entries
      modifies `stages, `data, `locked
      ensures locked == old(locked) - {old(stages)[n].entries[LEASE].inode}
      ensures stages == if coordinated && Removable(old(stages)[n].entries) then old(stages) - {n} else old(stages)
      ensures r.Ok? <==> coordinated && Removable(old(stages)[n].entries)
      ensures !r.Ok? && old(stages)[n].ours && Removable(old(stages)[n].entries) ==> Reapable(stages[n], locked)
      ensures forall p | p in live && live[p] in old(data) :: live[p] in data && data[live[p]] == old(data)[live[p]]
    {
      hide Removable;
      locked := locked - {stages[n].entries[LEASE].inode};
      if !coordinated {
        return Err(Busy);
      }
      r := RemoveStaging(n);
    }
  }
}
