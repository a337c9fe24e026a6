// The life of one transfer's stage, from staging to Close: internal/session/stage.go and stage_recovery.go.

module Lifecycle {
  import opened Model
  import opened Slots
  import opened Staging
  import opened Ownership
  import opened Recovery

  /** A name nobody has used. */
  predicate Fresh(s: System, n: string) {
    StagingName(n) && n !in s.stages && n !in s.home.now && n !in s.home.maybe && n !in s.tampered && n !in s.leases
  }

  /** What staging leaves: a durable directory with a durable, locked lease, and the coordinator free. */
  function Opened(s: System, j: nat, n: string): System {
    System(Synced(Add(s.home, n)), s.stages[n := Synced(Add(EMPTY_DIR, LEASE))], None, s.leases[n := j],
           s.processes[j := Live(n, {})], s.tampered)
  }

  // ---- single steps ----

  /** A run and where it has come. */
  ghost predicate Comes(tr: seq<System>, ev: seq<(nat, Event)>, s: System, last: System) {
    Steps(tr, ev) && tr[0] == s && tr[|tr| - 1] == last
  }

  lemma Stays(s: System)
    ensures Comes([s], [], s, s)
  {
    NoSteps(s);
  }

  lemma GoesOn(tr: seq<System>, ev: seq<(nat, Event)>, s: System, last: System, s1: System, j: nat, e: Event)
    returns (tr1: seq<System>, ev1: seq<(nat, Event)>)
    requires Comes(tr, ev, s, last) && Next(last, s1, j, e)
    ensures Comes(tr1, ev1, s, s1) && tr1 == tr + [s1] && ev1 == ev + [(j, e)]
  {
    hide Next;
    tr1, ev1 := OneMore(tr, ev, s1, j, e);
  }

  /** From nothing to the directory. */
  lemma OpensDirectory(s: System, j: nat, n: string) returns (tr: seq<System>, ev: seq<(nat, Event)>, last: System)
    requires j !in s.processes && s.coordinator == None && Fresh(s, n)
    ensures Comes(tr, ev, s, last)
    ensures last == At(WithStage(s, n, EMPTY_DIR), j, Made(n)).(home := Add(s.home, n), coordinator := Some(j))
  {
    hide Comes, StagingName;
    var s1, s2 := At(s, j, Waiting), At(s, j, Holding).(coordinator := Some(j));
    last := At(WithStage(s, n, EMPTY_DIR), j, Made(n)).(home := Add(s.home, n), coordinator := Some(j));
    tr, ev := [s], [];
    Stays(s);
    tr, ev := GoesOn(tr, ev, s, s, s1, j, Start);
    assert s2.processes == At(s1, j, Holding).processes;
    tr, ev := GoesOn(tr, ev, s, s1, s2, j, Coordinate);
    assert last.processes == At(s2, j, Made(n)).processes;
    tr, ev := GoesOn(tr, ev, s, s2, last, j, Make(n));
  }

  /** From the directory to the lease, and both durable. */
  lemma MakesLease(tr0: seq<System>, ev0: seq<(nat, Event)>, s: System, at: System, j: nat, n: string)
    returns (tr: seq<System>, ev: seq<(nat, Event)>, last: System)
    requires Comes(tr0, ev0, s, at) && Is(at, j, Made(n)) && n in at.stages && at.stages[n] == EMPTY_DIR
    requires n !in at.leases
    ensures Comes(tr, ev, s, last)
    ensures last == System(Synced(at.home), at.stages[n := Synced(Add(EMPTY_DIR, LEASE))], None, at.leases[n := j],
                           at.processes[j := Live(n, {})], at.tampered)
  {
    hide Comes;
    var d := Add(EMPTY_DIR, LEASE);
    var s1 := At(WithStage(at, n, d), j, Leased(n));
    tr, ev := GoesOn(tr0, ev0, s, at, s1, j, OpenLease(n));
    var s2 := At(s1, j, Locked(n)).(leases := at.leases[n := j]);
    tr, ev := GoesOn(tr, ev, s, s1, s2, j, LockLease(n));
    tr, ev, last := LeaseSynced(tr, ev, s, s2, j, n);
    assert last.stages == at.stages[n := Synced(d)] && last.processes == at.processes[j := Live(n, {})];
  }

  lemma LeaseSynced(tr0: seq<System>, ev0: seq<(nat, Event)>, s: System, at: System, j: nat, n: string)
    returns (tr: seq<System>, ev: seq<(nat, Event)>, last: System)
    requires Comes(tr0, ev0, s, at) && Is(at, j, Locked(n)) && n in at.stages
    ensures Comes(tr, ev, s, last)
    ensures last == System(Synced(at.home), at.stages[n := Synced(at.stages[n])], None, at.leases,
                           at.processes[j := Live(n, {})], at.tampered)
  {
    hide Comes;
    var s1 := At(WithStage(at, n, Synced(at.stages[n])), j, LeaseDurable(n));
    tr, ev := GoesOn(tr0, ev0, s, at, s1, j, SyncStage(n));
    last := At(s1, j, Live(n, {})).(home := Synced(s1.home), coordinator := None);
    tr, ev := GoesOn(tr, ev, s, s1, last, j, Return(n));
    assert last.processes == at.processes[j := Live(n, {})];
  }

  /** A new transfer can always get as far as its live stage. */
  lemma Opens(s: System, j: nat, n: string) returns (tr: seq<System>, ev: seq<(nat, Event)>)
    requires j !in s.processes && s.coordinator == None && Fresh(s, n)
    ensures Comes(tr, ev, s, Opened(s, j, n))
  {
    hide Comes, StagingName;
    var at, last;
    tr, ev, at := OpensDirectory(s, j, n);
    tr, ev, last := MakesLease(tr, ev, s, at, j, n);
    assert last.stages == Opened(s, j, n).stages && last.processes == Opened(s, j, n).processes;
  }

  /** A slot is created and published. */
  lemma Publishes(tr0: seq<System>, ev0: seq<(nat, Event)>, s: System, at: System, j: nat, n: string, e: string)
    returns (tr: seq<System>, ev: seq<(nat, Event)>, last: System)
    requires Comes(tr0, ev0, s, at) && Is(at, j, Live(n, {})) && n in at.stages && StagingSlot(e)
    requires e !in at.stages[n].now
    ensures Comes(tr, ev, s, last) && last == WithStage(at, n, Drop(Add(at.stages[n], e), e))
    ensures |ev| == |ev0| + 2 && ev[|ev0| + 1] == (j, RenameOut(n, {e}, e))
  {
    hide Comes, StagingSlot;
    var s1 := At(WithStage(at, n, Add(at.stages[n], e)), j, Live(n, {e}));
    assert {} + {e} == {e} && {e} - {e} == {};
    tr, ev := GoesOn(tr0, ev0, s, at, s1, j, CreateSlot(n, {}, e));
    last := WithStage(at, n, Drop(Add(at.stages[n], e), e));
    assert last.processes == s1.processes[j := Live(n, {})] && last.stages == s1.stages[n := last.stages[n]];
    tr, ev := GoesOn(tr, ev, s, s1, last, j, RenameOut(n, {e}, e));
  }

  /** Close takes the lease and the directory away. */
  lemma ClosesDown(tr0: seq<System>, ev0: seq<(nat, Event)>, s: System, at: System, j: nat, n: string)
    returns (tr: seq<System>, ev: seq<(nat, Event)>, last: System)
    requires Comes(tr0, ev0, s, at) && Is(at, j, Live(n, {})) && at.coordinator == None && n in at.stages
    requires at.stages[n].now == {LEASE}
    ensures Comes(tr, ev, s, last) && ev0 <= ev
    ensures last == System(Synced(Drop(at.home, n)), at.stages[n := EMPTY_DIR], None, at.leases - {n},
                           at.processes[j := Ended], at.tampered)
  {
    hide Comes;
    var s1 := At(at, j, Removing(n, Validating, true)).(coordinator := Some(j), leases := at.leases - {n});
    tr, ev := GoesOn(tr0, ev0, s, at, s1, j, Close(n, {}));
    LeaseAlone(at.stages[n].now);
    var s2 := At(s1, j, Removing(n, Removal.Unlinking, true));
    tr, ev := GoesOn(tr, ev, s, s1, s2, j, Validate(n, true));
    tr, ev, last := Empties(tr, ev, s, s2, j, n);
    assert last.processes == at.processes[j := Ended];
  }

  lemma Empties(tr0: seq<System>, ev0: seq<(nat, Event)>, s: System, at: System, j: nat, n: string)
    returns (tr: seq<System>, ev: seq<(nat, Event)>, last: System)
    requires Comes(tr0, ev0, s, at) && Is(at, j, Removing(n, Removal.Unlinking, true)) && n in at.stages
    requires at.stages[n].now == {LEASE}
    ensures Comes(tr, ev, s, last) && ev0 <= ev
    ensures last == System(Synced(Drop(at.home, n)), at.stages[n := EMPTY_DIR], None, at.leases,
                           at.processes[j := Ended], at.tampered)
  {
    hide Comes;
    var s1 := At(WithStage(at, n, Synced(at.stages[n])), j, Removing(n, Emptied, true));
    tr, ev := GoesOn(tr0, ev0, s, at, s1, j, SyncEmpty(n, true));
    var s2 := At(WithStage(at, n, Drop(s1.stages[n], LEASE)), j, Removing(n, Unmarked, true));
    assert s2.stages == s1.stages[n := s2.stages[n]] && s2.processes == s1.processes[j := s2.processes[j]];
    tr, ev := GoesOn(tr, ev, s, s1, s2, j, DropLease(n, true));
    tr, ev, last := Vanishes(tr, ev, s, s2, j, n);
    assert last.processes == at.processes[j := Ended] && last.stages == at.stages[n := EMPTY_DIR];
  }

  lemma Vanishes(tr0: seq<System>, ev0: seq<(nat, Event)>, s: System, at: System, j: nat, n: string)
    returns (tr: seq<System>, ev: seq<(nat, Event)>, last: System)
    requires Comes(tr0, ev0, s, at) && Is(at, j, Removing(n, Unmarked, true)) && n in at.stages
    requires at.stages[n].now == {}
    ensures Comes(tr, ev, s, last) && ev0 <= ev
    ensures last == System(Synced(Drop(at.home, n)), at.stages[n := EMPTY_DIR], None, at.leases,
                           at.processes[j := Ended], at.tampered)
  {
    hide Comes;
    var s1 := At(WithStage(at, n, EMPTY_DIR), j, Removing(n, Cleared, true));
    tr, ev := GoesOn(tr0, ev0, s, at, s1, j, SyncUnmarked(n, true));
    var s2 := At(s1.(home := Drop(s1.home, n)), j, Removing(n, Gone, true));
    tr, ev := GoesOn(tr, ev, s, s1, s2, j, RemoveDirectory(n, true));
    last := After(s2.(home := Synced(s2.home)), j, true);
    tr, ev := GoesOn(tr, ev, s, s2, last, j, SyncHome(n, true));
    assert last.processes == at.processes[j := Ended];
  }

  lemma LeaseAlone(entries: set<string>)
    requires entries == {LEASE}
    ensures ValidLayout(entries)
  {
  }

  /** A whole transfer, by its own steps alone: staging gets a live stage under any fresh name, payloads are created in
      it and published from it, and Close leaves no trace of it in the home, not even for a crash to bring back. */
  lemma TransferGoes(s: System, j: nat, n: string, e: string) returns (tr: seq<System>, ev: seq<(nat, Event)>)
    requires j !in s.processes && s.coordinator == None && Fresh(s, n) && StagingSlot(e)
    ensures Steps(tr, ev) && tr[0] == s && exists i :: 0 <= i < |ev| && ev[i] == (j, RenameOut(n, {e}, e))
    ensures tr[|tr| - 1] ==
            s.(home := Synced(s.home), stages := s.stages[n := EMPTY_DIR], processes := s.processes[j := Ended])
  {
    hide StagingName, StagingSlot, Next;
    var at, live := Opened(s, j, n), Opened(s, j, n);
    tr, ev := Opens(s, j, n);
    LeaseNotSlot();
    ghost var before := |ev|;
    tr, ev, at := Publishes(tr, ev, s, live, j, n, e);
    ghost var published := ev;
    var last;
    tr, ev, last := ClosesDown(tr, ev, s, at, j, n);
    assert ev[before + 1] == published[before + 1];
    HomeBack(s, n);
    assert last.processes == s.processes[j := Ended] && last.stages == s.stages[n := EMPTY_DIR];
    assert last.leases == s.leases;
  }

  lemma HomeBack(s: System, n: string)
    requires n !in s.home.now
    ensures Synced(Drop(Synced(Add(s.home, n)), n)) == Synced(s.home)
  {
  }

  /** A transfer that closes without the coordinator leaves its stage to recovery. */
  lemma OrphanedIsReapable(s: System, j: nat, n: string, slots: set<string>) returns (s1: System)
    requires Inv(s) && Is(s, j, Live(n, slots))
    ensures Next(s, s1, j, Orphan(n, slots)) && Is(s1, j, Ended) && Abandoned(s1, n) && MayReap(s1, n)
    ensures s1.home == s.home && s1.stages == s.stages
  {
    hide StagingName, StagingSlot, SlotsMarked, FamiliarOnly, RemovalOk, NoSlot;
    s1 := At(s, j, Ended).(leases := s.leases - {n});
    assert PhaseOk(s, s.processes[j]) && StageOk(s, n);
    forall k | k in s1.processes
      ensures !Owning(s1.processes[k], n) && !(s1.processes[k].Removing? && s1.processes[k].n == n)
    {
      if k != j {
        OwnerAlone(s, j, k, n);
      }
    }
  }

  /** What a machine crash may leave: of every directory what is sure, and any selection of what was not synced. */
  predicate MayRemain(s: System, home: set<string>, kept: map<string, set<string>>) {
    s.home.sure <= home <= s.home.maybe && kept.Keys == s.stages.Keys &&
    forall n | n in kept :: s.stages[n].sure <= kept[n] <= s.stages[n].maybe
  }

  lemma AnyDeath(s: System, j: nat) returns (dead: System)
    requires j in s.processes
    ensures Dies(s, dead, j) && dead.home == s.home && dead.stages == s.stages
    ensures dead.processes == s.processes - {j} && dead.coordinator != Some(j)
    ensures forall n :: n in dead.leases <==> n in s.leases && s.leases[n] != j
  {
    dead := s.(processes := s.processes - {j},
               coordinator := if s.coordinator == Some(j) then None else s.coordinator,
               leases := map n | n in s.leases && s.leases[n] != j :: s.leases[n]);
  }

  lemma AnyLoss(s: System, home: set<string>, kept: map<string, set<string>>) returns (crashed: System)
    requires MayRemain(s, home, kept)
    ensures Crashes(s, crashed) && crashed.processes == map[] && crashed.leases == map[]
    ensures crashed.home.now == home && crashed.stages.Keys == kept.Keys
    ensures forall n | n in kept :: crashed.stages[n].now == kept[n]
  {
    var stages := map n | n in kept :: Dir(kept[n], kept[n], kept[n]);
    crashed := System(Dir(home, home, home), stages, None, map[], map[], s.tampered);
    assert stages.Keys == kept.Keys;
  }

  /** No failure is left out: a process can die wherever it is, which frees its locks alone; a removal can fail at any
      of its steps; and a machine crash can leave every selection of what was not synced. */
  lemma AnyFailure(s: System, j: nat, home: set<string>, kept: map<string, set<string>>)
    returns (dead: System, failed: System, crashed: System)
    requires j in s.processes && MayRemain(s, home, kept)
    ensures Next(s, dead, j, Die) && dead.home == s.home && dead.stages == s.stages
    ensures dead.processes == s.processes - {j} && dead.coordinator != Some(j)
    ensures forall n :: n in dead.leases <==> n in s.leases && s.leases[n] != j
    ensures var p := s.processes[j];
            p.Removing? ==> Next(s, failed, j, Fail(p.n, p.step, p.closing)) && failed.home == s.home &&
                            failed.stages == s.stages
    ensures Next(s, crashed, j, Crash) && crashed.processes == map[] && crashed.leases == map[]
    ensures crashed.home.now == home && crashed.stages.Keys == kept.Keys
    ensures forall n | n in kept :: crashed.stages[n].now == kept[n]
  {
    hide Dies, Crashes, MayRemain;
    dead := AnyDeath(s, j);
    failed := After(s, j, s.processes[j].Removing? && s.processes[j].closing);
    crashed := AnyLoss(s, home, kept);
  }
}
