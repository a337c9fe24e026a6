// What recovery takes and what it leaves: entries the staging protocol does not know, error-free passes, and the
// directories removeStaging works on. internal/session/stage_recovery.go.

module Recovery {
  import opened Model
  import opened Format
  import opened Slots
  import opened Staging
  import opened Ownership

  // ---- runs with their events ----

  /** States and, between them, which process did what. */
  ghost predicate Steps(tr: seq<System>, ev: seq<(nat, Event)>) {
    |tr| == |ev| + 1 && forall i | 0 <= i < |ev| :: Next(tr[i], tr[i + 1], ev[i].0, ev[i].1)
  }

  ghost predicate Reachable(s: System) {
    exists run: seq<System> :: Run(run) && run[|run| - 1] == s
  }

  lemma ReachableInv(s: System)
    requires Reachable(s)
    ensures Inv(s)
  {
    hide Inv;
    var run: seq<System> :| Run(run) && run[|run| - 1] == s;
    RunInv(run, |run| - 1);
  }

  lemma {:induction false} StepsInv(tr: seq<System>, ev: seq<(nat, Event)>, i: nat)
    requires Steps(tr, ev) && Inv(tr[0]) && i < |tr|
    ensures Inv(tr[i])
  {
    hide Next, Inv;
    if i > 0 {
      StepsInv(tr, ev, i - 1);
      assert Next(tr[i - 1], tr[i - 1 + 1], ev[i - 1].0, ev[i - 1].1);
      NextKeeps(tr[i - 1], tr[i], ev[i - 1].0, ev[i - 1].1);
    }
  }

  // ---- entries the protocol does not know ----

  /** Some process removes the stage and is past its validation, not yet past its second pass. */
  predicate Unlinking(s: System, n: string) {
    exists j | j in s.processes :: UnlinkingPhase(s.processes[j], n)
  }

  predicate UnlinkingPhase(p: Phase, n: string) {
    p.Removing? && p.n == n && p.step == Removal.Unlinking
  }

  /** A run from here, with or without machine crashes. */
  ghost predicate Continues(tr: seq<System>, ev: seq<(nat, Event)>, s: System, crashes: bool) {
    Steps(tr, ev) && tr[0] == s && (!crashes ==> forall i | 0 <= i < |ev| :: !ev[i].1.Crash?)
  }

  predicate Holds(s: System, n: string, e: string) {
    n in s.home.now && n in s.stages && e in s.stages[n].now
  }

  /** The entry and its stage stay in place whatever happens. */
  ghost predicate Lasting(s: System, n: string, e: string, crashes: bool) {
    forall tr: seq<System>, ev | Continues(tr, ev, s, crashes) :: Holds(tr[|tr| - 1], n, e)
  }

  /** What keeps it there. */
  predicate Guarded(s: System, n: string, e: string, crashes: bool) {
    Holds(s, n, e) && !Unlinking(s, n) && (crashes ==> e in s.stages[n].sure && n in s.home.sure)
  }

  /** The ways a step takes an entry out of a stage: a removal drops it or the lease, or the owner renames a slot. */
  predicate Takes(s: System, j: nat, ev: Event, n: string, f: string) {
    Unlinked(s, j, ev, n, f) || (ev.DropLease? && ev.n == n && f == LEASE) || TakesOut(ev, n, f)
  }

  /** publishPrefix renames the slot into place. */
  predicate TakesOut(ev: Event, n: string, f: string) {
    ev.RenameOut? && ev.n == n && ev.e == f
  }

  predicate OfRemoval(ev: Event) {
    ev.Reap? || ev.Validate? || ev.Unlink? || ev.SyncEmpty? || ev.DropLease? || ev.SyncUnmarked? ||
    ev.RemoveDirectory? || ev.SyncHome? || ev.Fail?
  }

  /** No other step does. */
  lemma OnlyTaken(s: System, s1: System, j: nat, ev: Event, n: string, f: string)
    requires Next(s, s1, j, ev) && !ev.Crash? && n in s.stages && Consistent(s.stages[n])
    ensures n in s1.stages
    ensures f in s.stages[n].now && !Takes(s, j, ev, n, f) ==>
              f in s1.stages[n].now && (f in s.stages[n].sure ==> f in s1.stages[n].sure)
  {
    hide Next, Takes, Consistent;
    if OfRemoval(ev) {
      OnlyTakenRemoving(s, s1, j, ev, n, f);
    } else {
      OnlyTakenElse(s, s1, j, ev, n, f);
    }
  }

  lemma OnlyTakenRemoving(s: System, s1: System, j: nat, ev: Event, n: string, f: string)
    requires Next(s, s1, j, ev) && OfRemoval(ev) && n in s.stages && Consistent(s.stages[n])
    ensures n in s1.stages
    ensures f in s.stages[n].now && !Takes(s, j, ev, n, f) ==>
              f in s1.stages[n].now && (f in s.stages[n].sure ==> f in s1.stages[n].sure)
  {
    hide StagingName, StagingSlot, ValidLayout, Familiar;
  }

  lemma OnlyTakenElse(s: System, s1: System, j: nat, ev: Event, n: string, f: string)
    requires Next(s, s1, j, ev) && !OfRemoval(ev) && !ev.Crash? && n in s.stages && Consistent(s.stages[n])
    ensures n in s1.stages
    ensures f in s.stages[n].now && !Takes(s, j, ev, n, f) ==>
              f in s1.stages[n].now && (f in s.stages[n].sure ==> f in s1.stages[n].sure)
  {
    hide StagingName, StagingSlot, ValidLayout, Familiar;
  }

  /** What one step does to an entry the protocol does not know, and to the name of its stage. */
  lemma EntryStep(s: System, s1: System, j: nat, ev: Event, n: string, e: string)
    requires Next(s, s1, j, ev) && !ev.Crash? && !Familiar(e) && n in s.stages && Consistent(s.stages[n])
    requires ev.RenameOut? ==> AllSlots(ev.slots)
    ensures n in s1.stages
    ensures e in s.stages[n].now && !Unlinked(s, j, ev, n, e) ==>
              e in s1.stages[n].now && (e in s.stages[n].sure ==> e in s1.stages[n].sure)
    ensures e in s1.stages[n].now ==> e in s.stages[n].now || ev == Tamper(n, e)
  {
    hide StagingName, StagingSlot, ValidLayout, Familiar;
    NotOurs(e);
  }

  lemma NotOurs(e: string)
    requires !Familiar(e)
    ensures e != LEASE && !StagingSlot(e)
  {
    hide StagingSlot;
  }

  /** A second pass came to the entry. */
  predicate Unlinked(s: System, j: nat, ev: Event, n: string, e: string) {
    ev.Unlink? && ev.n == n && ev.e == e && Is(s, j, Removing(n, Removal.Unlinking, ev.closing))
  }

  lemma HomeStep(s: System, s1: System, j: nat, ev: Event, n: string)
    requires Next(s, s1, j, ev) && !ev.Crash? && n in s.stages && s.stages[n].now != {} && Consistent(s.home)
    ensures n in s.home.now ==> n in s1.home.now
    ensures n in s.home.sure ==> n in s1.home.sure
  {
    hide StagingName, StagingSlot, ValidLayout, Familiar;
  }

  /** A removal gets past its validation only by validating, and then every entry is one the protocol knows. */
  lemma UnlinkingStep(s: System, s1: System, j: nat, ev: Event, k: nat, n: string, closing: bool, e: string)
    requires Next(s, s1, j, ev) && !Familiar(e) && n in s1.stages && e in s1.stages[n].now
    requires Is(s1, k, Removing(n, Removal.Unlinking, closing))
    ensures Is(s, k, Removing(n, Removal.Unlinking, closing)) && Unlinking(s, n)
  {
    hide Next, Familiar, ValidLayout, Unlinking;
    ValidatedBefore(s, s1, j, ev, k, n, closing);
    UnfamiliarLayout(s1.stages[n].now, e);
    UnlinkingHere(s, k, n, closing);
  }

  lemma ValidatedBefore(s: System, s1: System, j: nat, ev: Event, k: nat, n: string, closing: bool)
    requires Next(s, s1, j, ev) && Is(s1, k, Removing(n, Removal.Unlinking, closing))
    ensures Is(s, k, Removing(n, Removal.Unlinking, closing)) || (n in s1.stages && ValidLayout(s1.stages[n].now))
  {
    hide StagingName, StagingSlot, Familiar, ValidLayout;
  }

  lemma UnlinkingHere(s: System, k: nat, n: string, closing: bool)
    ensures Is(s, k, Removing(n, Removal.Unlinking, closing)) ==> Unlinking(s, n)
  {
    if Is(s, k, Removing(n, Removal.Unlinking, closing)) {
      assert UnlinkingPhase(s.processes[k], n);
    }
  }

  /** The slots a transfer renames are slots by name. */
  lemma OwnSlots(s: System, s1: System, j: nat, ev: Event)
    requires Inv(s) && Next(s, s1, j, ev) && ev.RenameOut?
    ensures AllSlots(ev.slots)
  {
    hide StagingName, StagingSlot, StageOk, LocksMatch, NoSlot;
    assert PhaseOk(s, s.processes[j]);
  }

  lemma ConsistentDirs(s: System, n: string)
    requires Inv(s) && n in s.stages
    ensures Consistent(s.home) && Consistent(s.stages[n])
  {
    hide StagingName, StagingSlot, PhaseOk, LocksMatch;
    assert StageOk(s, n);
  }

  /** No step, in whichever process, takes an unfamiliar entry out of a guarded stage or lets a removal past its
      validation. */
  lemma GuardedStep(s: System, s1: System, j: nat, ev: Event, n: string, e: string, crashes: bool)
    requires Inv(s) && Next(s, s1, j, ev) && (ev.Crash? ==> crashes) && !Familiar(e) && Guarded(s, n, e, crashes)
    ensures Guarded(s1, n, e, crashes)
  {
    hide Inv, Next, Familiar;
    if ev.Crash? {
      GuardedCrash(s, s1, j, n, e);
    } else {
      if ev.RenameOut? {
        OwnSlots(s, s1, j, ev);
      }
      ConsistentDirs(s, n);
      assert !Unlinked(s, j, ev, n, e);
      EntryStep(s, s1, j, ev, n, e);
      HomeStep(s, s1, j, ev, n);
      if k :| k in s1.processes && UnlinkingPhase(s1.processes[k], n) {
        UnlinkingStep(s, s1, j, ev, k, n, s1.processes[k].closing, e);
      }
    }
  }

  lemma GuardedCrash(s: System, s1: System, j: nat, n: string, e: string)
    requires Next(s, s1, j, Crash) && Guarded(s, n, e, true)
    ensures Guarded(s1, n, e, true)
  {
    assert Survives(s.stages[n], s1.stages[n]);
  }

  lemma {:induction false} GuardedRun(tr: seq<System>, ev: seq<(nat, Event)>, n: string, e: string, crashes: bool,
                                      i: nat)
    requires Steps(tr, ev) && Inv(tr[0]) && (!crashes ==> forall k | 0 <= k < |ev| :: !ev[k].1.Crash?) && i < |tr|
    requires !Familiar(e) && Guarded(tr[0], n, e, crashes)
    ensures Guarded(tr[i], n, e, crashes)
  {
    hide Next, Inv, Guarded, Familiar;
    if i > 0 {
      GuardedRun(tr, ev, n, e, crashes, i - 1);
      StepsInv(tr, ev, i - 1);
      assert Next(tr[i - 1], tr[i - 1 + 1], ev[i - 1].0, ev[i - 1].1);
      GuardedStep(tr[i - 1], tr[i], ev[i - 1].0, ev[i - 1].1, n, e, crashes);
    }
  }

  /** The exact fate of an entry the protocol does not know. Without machine crashes it and its stage stay for good,
      through every recovery and every Close, if and only if no removal of the stage is past its validation; through
      machine crashes as well if and only if, besides, the entry and the stage's name have been synced. */
  lemma UnfamiliarIsSafe(s: System, n: string, e: string, crashes: bool)
    requires Reachable(s) && Holds(s, n, e) && !Familiar(e)
    ensures Lasting(s, n, e, crashes) <==>
            !Unlinking(s, n) && (crashes ==> e in s.stages[n].sure && n in s.home.sure)
  {
    hide Next, Inv, Familiar;
    ReachableInv(s);
    if Guarded(s, n, e, crashes) {
      forall tr: seq<System>, ev | Continues(tr, ev, s, crashes)
        ensures Holds(tr[|tr| - 1], n, e)
      {
        GuardedRun(tr, ev, n, e, crashes, |tr| - 1);
      }
    } else if Unlinking(s, n) {
      LostToUnlink(s, n, e, crashes);
    } else {
      LostToCrash(s, n, e);
    }
  }

  /** The second pass unlinks every name that is not the lease. */
  lemma LostToUnlink(s: System, n: string, e: string, crashes: bool)
    requires Holds(s, n, e) && !Familiar(e) && Unlinking(s, n)
    ensures !Lasting(s, n, e, crashes) && !AllLasting(s, n, crashes)
  {
    hide StagingSlot;
    var j :| j in s.processes && UnlinkingPhase(s.processes[j], n);
    var closing := s.processes[j].closing;
    var s1 := WithStage(s, n, Drop(s.stages[n], e));
    assert Next(s, s1, j, Unlink(n, closing, e));
    var tr, ev := [s, s1], [(j, Unlink(n, closing, e))];
    assert Continues(tr, ev, s, crashes) && !Renamed(ev, n, e) && !Holds(tr[|tr| - 1], n, e);
  }

  /** A crash may lose whatever was not synced. */
  lemma LostToCrash(s: System, n: string, e: string)
    requires Inv(s) && Holds(s, n, e) && !(e in s.stages[n].sure && n in s.home.sure)
    ensures !Lasting(s, n, e, true) && !AllLasting(s, n, true)
  {
    hide StagingName, StagingSlot, LocksMatch, PhaseOk, FamiliarOnly;
    var s1 := Crashed(s);
    forall m | m in s.stages
      ensures Survives(s.stages[m], s1.stages[m])
    {
      assert StageOk(s, m);
    }
    assert Next(s, s1, 0, Crash);
    var tr, ev := [s, s1], [(0, Crash)];
    assert Continues(tr, ev, s, true) && !Renamed(ev, n, e) && !Holds(tr[|tr| - 1], n, e);
  }

  /** A machine crash that loses all it can. */
  function Crashed(s: System): System {
    System(Dir(s.home.sure, s.home.sure, s.home.sure),
           map m | m in s.stages :: Dir(s.stages[m].sure, s.stages[m].sure, s.stages[m].sure),
           None, map[], map[], s.tampered)
  }

  // ---- everything beside such an entry ----

  /** The lease is there, and a removal of the stage has made the end of the payloads durable and drops it next. */
  predicate DroppingLease(s: System, n: string) {
    n in s.stages && LEASE in s.stages[n].now && exists j | j in s.processes :: EmptiedPhase(s.processes[j], n)
  }

  predicate EmptiedPhase(p: Phase, n: string) {
    p.Removing? && p.n == n && p.step == Emptied
  }

  /** The owner of the stage renames the slot away somewhere in the run. */
  ghost predicate Renamed(ev: seq<(nat, Event)>, n: string, f: string) {
    exists i :: 0 <= i < |ev| && TakesOut(ev[i].1, n, f)
  }

  /** Every entry the stage has now stays in place whatever happens, except for the slots its owner publishes. */
  ghost predicate AllLasting(s: System, n: string, crashes: bool)
    requires n in s.stages
  {
    forall tr: seq<System>, ev, f | Continues(tr, ev, s, crashes) && f in s.stages[n].now && !Renamed(ev, n, f) ::
      Holds(tr[|tr| - 1], n, f)
  }

  /** What keeps an entry beside an unfamiliar one there. */
  predicate Kept(s: System, n: string, e: string, f: string, crashes: bool) {
    Guarded(s, n, e, crashes) && !DroppingLease(s, n) && f in s.stages[n].now &&
    (crashes ==> f in s.stages[n].sure)
  }

  /** A removal comes to the lease only from its second pass, and nobody makes a lease under a remover. */
  lemma DroppingStep(s: System, s1: System, j: nat, ev: Event, n: string)
    requires Inv(s) && Next(s, s1, j, ev) && !ev.Crash? && n in s.stages && DroppingLease(s1, n)
    ensures Unlinking(s, n) || DroppingLease(s, n)
  {
    hide Inv, Next, LocksMatch;
    var k :| k in s1.processes && EmptiedPhase(s1.processes[k], n);
    EmptiedBefore(s, s1, j, ev, n, k);
    if Is(s, k, s1.processes[k]) && LEASE !in s.stages[n].now {
      InvLocks(s);
      RemoverAlone(s, k, j);
      NewLease(s, s1, j, ev, n);
    }
  }

  lemma InvLocks(s: System)
    requires Inv(s)
    ensures LocksMatch(s)
  {
  }

  lemma EmptiedBefore(s: System, s1: System, j: nat, ev: Event, n: string, k: nat)
    requires Next(s, s1, j, ev) && !ev.Crash? && k in s1.processes && EmptiedPhase(s1.processes[k], n)
    ensures Unlinking(s, n) || Is(s, k, s1.processes[k])
  {
    hide StagingName, StagingSlot, ValidLayout, Familiar, Unlinking;
    UnlinkingHere(s, k, n, s1.processes[k].closing);
  }

  /** A lease is made by the owner of a new stage only. */
  lemma NewLease(s: System, s1: System, j: nat, ev: Event, n: string)
    requires Next(s, s1, j, ev) && !ev.Crash? && n in s.stages && LEASE !in s.stages[n].now
    requires n in s1.stages && LEASE in s1.stages[n].now
    ensures j in s.processes && s.processes[j].Made?
  {
    hide StagingName, StagingSlot, ValidLayout, Familiar;
    LeaseKnown();
  }

  lemma LeaseKnown()
    ensures Familiar(LEASE) && !StagingSlot(LEASE)
  {
  }

  lemma RemoverAlone(s: System, k: nat, j: nat)
    requires LocksMatch(s) && k in s.processes && s.processes[k].Removing?
    ensures j in s.processes ==> !s.processes[j].Made?
  {
  }

  lemma KeptStep(s: System, s1: System, j: nat, ev: Event, n: string, e: string, f: string, crashes: bool)
    requires Inv(s) && Next(s, s1, j, ev) && (ev.Crash? ==> crashes) && !Familiar(e) && Kept(s, n, e, f, crashes)
    requires !TakesOut(ev, n, f)
    ensures Kept(s1, n, e, f, crashes)
  {
    hide Inv, Next, Familiar, Guarded;
    GuardedStep(s, s1, j, ev, n, e, crashes);
    HeldBoth(s, s1, n, e, crashes);
    if ev.Crash? {
      KeptCrash(s, s1, j, n, e, f);
    } else {
      ConsistentDirs(s, n);
      NotTaken(s, s1, j, ev, n, e, f, crashes);
      OnlyTaken(s, s1, j, ev, n, f);
      if DroppingLease(s1, n) {
        DroppingStep(s, s1, j, ev, n);
      }
    }
  }

  lemma HeldBoth(s: System, s1: System, n: string, e: string, crashes: bool)
    requires Guarded(s, n, e, crashes) && Guarded(s1, n, e, crashes)
    ensures n in s.stages && n in s1.stages && !Unlinking(s, n)
  {
  }

  lemma NotTaken(s: System, s1: System, j: nat, ev: Event, n: string, e: string, f: string, crashes: bool)
    requires Next(s, s1, j, ev) && Kept(s, n, e, f, crashes) && !TakesOut(ev, n, f)
    ensures !Takes(s, j, ev, n, f)
  {
    hide StagingName, StagingSlot, ValidLayout, Familiar;
    if ev.Unlink? {
      UnlinkingHere(s, j, n, ev.closing);
    }
    if ev.DropLease? {
      EmptiedHere(s, j, n, ev.closing);
    }
  }

  lemma EmptiedHere(s: System, k: nat, n: string, closing: bool)
    ensures Is(s, k, Removing(n, Emptied, closing)) && n in s.stages && LEASE in s.stages[n].now ==>
              DroppingLease(s, n)
  {
    if Is(s, k, Removing(n, Emptied, closing)) {
      assert EmptiedPhase(s.processes[k], n);
    }
  }

  lemma KeptCrash(s: System, s1: System, j: nat, n: string, e: string, f: string)
    requires Next(s, s1, j, Crash) && Kept(s, n, e, f, true)
    ensures n in s1.stages && f in s1.stages[n].now && f in s1.stages[n].sure && !DroppingLease(s1, n)
  {
    assert Survives(s.stages[n], s1.stages[n]);
  }

  lemma {:induction false} KeptRun(tr: seq<System>, ev: seq<(nat, Event)>, n: string, e: string, f: string,
                                   crashes: bool, i: nat)
    requires Steps(tr, ev) && Inv(tr[0]) && (!crashes ==> forall k | 0 <= k < |ev| :: !ev[k].1.Crash?) && i < |tr|
    requires !Familiar(e) && Kept(tr[0], n, e, f, crashes) && !Renamed(ev, n, f)
    ensures Kept(tr[i], n, e, f, crashes)
  {
    hide Next, Inv, Kept, Familiar, TakesOut;
    if i > 0 {
      KeptRun(tr, ev, n, e, f, crashes, i - 1);
      StepsInv(tr, ev, i - 1);
      assert Next(tr[i - 1], tr[i - 1 + 1], ev[i - 1].0, ev[i - 1].1);
      KeptStep(tr[i - 1], tr[i], ev[i - 1].0, ev[i - 1].1, n, e, f, crashes);
    }
  }

  /** What an unfamiliar entry does for its whole stage. Without machine crashes nothing the stage has now is ever lost
      to a removal, if and only if no removal of the stage is past its validation with the lease, or payloads, still to
      drop; through machine crashes as well if and only if, besides, all of it and the stage's name have been synced. */
  lemma UnfamiliarKeepsAll(s: System, n: string, e: string, crashes: bool)
    requires Reachable(s) && Holds(s, n, e) && !Familiar(e)
    ensures AllLasting(s, n, crashes) <==>
            !Unlinking(s, n) && !DroppingLease(s, n) &&
            (crashes ==> s.stages[n].now <= s.stages[n].sure && n in s.home.sure)
  {
    hide Next, Inv, Familiar;
    ReachableInv(s);
    if Unlinking(s, n) {
      LostToUnlink(s, n, e, crashes);
    } else if DroppingLease(s, n) {
      LostToDrop(s, n, crashes);
    } else if crashes && !(s.stages[n].now <= s.stages[n].sure && n in s.home.sure) {
      var f :| f in s.stages[n].now && !(f in s.stages[n].sure && n in s.home.sure);
      LostToCrash(s, n, f);
    } else {
      forall tr: seq<System>, ev, f | Continues(tr, ev, s, crashes) && f in s.stages[n].now && !Renamed(ev, n, f)
        ensures Holds(tr[|tr| - 1], n, f)
      {
        KeptRun(tr, ev, n, e, f, crashes, |tr| - 1);
      }
    }
  }

  /** The lease goes as soon as the end of the payloads is durable, whatever has come in since. */
  lemma LostToDrop(s: System, n: string, crashes: bool)
    requires DroppingLease(s, n)
    ensures !AllLasting(s, n, crashes)
  {
    hide StagingSlot;
    var j :| j in s.processes && EmptiedPhase(s.processes[j], n);
    var closing := s.processes[j].closing;
    var s1 := At(WithStage(s, n, Drop(s.stages[n], LEASE)), j, Removing(n, Unmarked, closing));
    assert Next(s, s1, j, DropLease(n, closing));
    var tr, ev := [s, s1], [(j, DropLease(n, closing))];
    assert Continues(tr, ev, s, crashes) && !Renamed(ev, n, LEASE) && !Holds(tr[|tr| - 1], n, LEASE);
  }

  /** An unfamiliar entry that is lost without a crash was unlinked by a removal, and it had appeared while that same
      removal was past its validation: from then on the remover did not leave its second pass. */
  lemma LossMeans(tr: seq<System>, ev: seq<(nat, Event)>, i: nat, n: string, e: string)
    requires Steps(tr, ev) && tr[0] == NO_STAGING && i < |ev| && !ev[i].1.Crash? && !Familiar(e)
    requires Holds(tr[i], n, e) && !Holds(tr[i + 1], n, e)
    ensures ev[i].1.Unlink? && ev[i].1.n == n && ev[i].1.e == e
    ensures exists k :: 0 <= k < i && ev[k].1 == Tamper(n, e) &&
              forall m | k <= m <= i :: Is(tr[m], ev[i].0, Removing(n, Removal.Unlinking, ev[i].1.closing))
  {
    hide Next, Inv, Familiar;
    InitialInv();
    StepsInv(tr, ev, i);
    assert Next(tr[i], tr[i + 1], ev[i].0, ev[i].1);
    LossStep(tr[i], tr[i + 1], ev[i].0, ev[i].1, n, e);
    var _ := AppearedLate(tr, ev, i, ev[i].0, n, ev[i].1.closing, e);
  }

  lemma InitialInv()
    ensures Inv(NO_STAGING)
  {
  }

  lemma LossStep(s: System, s1: System, j: nat, ev: Event, n: string, e: string)
    requires Inv(s) && Next(s, s1, j, ev) && !ev.Crash? && !Familiar(e) && Holds(s, n, e) && !Holds(s1, n, e)
    ensures ev.Unlink? && ev.n == n && ev.e == e && Is(s, j, Removing(n, Removal.Unlinking, ev.closing))
  {
    hide Inv, Next, Familiar;
    if ev.RenameOut? {
      OwnSlots(s, s1, j, ev);
    }
    ConsistentDirs(s, n);
    EntryStep(s, s1, j, ev, n, e);
    HomeStep(s, s1, j, ev, n);
  }

  /** Going back from a removal past its validation, an unfamiliar entry must have come in during it. */
  lemma {:induction false} AppearedLate(tr: seq<System>, ev: seq<(nat, Event)>, i: nat, j: nat, n: string,
                                        closing: bool, e: string) returns (k: nat)
    requires Steps(tr, ev) && tr[0] == NO_STAGING && i < |tr| && !Familiar(e)
    requires Is(tr[i], j, Removing(n, Removal.Unlinking, closing)) && n in tr[i].stages && e in tr[i].stages[n].now
    ensures k < i && ev[k].1 == Tamper(n, e)
    ensures forall m | k <= m <= i :: Is(tr[m], j, Removing(n, Removal.Unlinking, closing))
  {
    hide Next, Inv, Familiar;
    assert i > 0;
    InitialInv();
    StepsInv(tr, ev, i - 1);
    assert Next(tr[i - 1], tr[i - 1 + 1], ev[i - 1].0, ev[i - 1].1);
    BackStep(tr[i - 1], tr[i], ev[i - 1].0, ev[i - 1].1, j, n, closing, e);
    if ev[i - 1].1 == Tamper(n, e) {
      k := i - 1;
    } else {
      k := AppearedLate(tr, ev, i - 1, j, n, closing, e);
    }
  }

  lemma BackStep(s: System, s1: System, k: nat, ev: Event, j: nat, n: string, closing: bool, e: string)
    requires Inv(s) && Next(s, s1, k, ev) && !Familiar(e)
    requires Is(s1, j, Removing(n, Removal.Unlinking, closing)) && n in s1.stages && e in s1.stages[n].now
    ensures Is(s, j, Removing(n, Removal.Unlinking, closing))
    ensures ev == Tamper(n, e) || (n in s.stages && e in s.stages[n].now)
  {
    hide Inv, Next, Familiar;
    UnlinkingStep(s, s1, k, ev, j, n, closing, e);
    if ev.RenameOut? {
      OwnSlots(s, s1, k, ev);
    }
    RemovedStage(s, j, n);
    CrashEnds(s, s1, k, ev, j);
    ConsistentDirs(s, n);
    EntryStep(s, s1, k, ev, n, e);
  }

  lemma RemovedStage(s: System, j: nat, n: string)
    requires Inv(s) && j in s.processes && s.processes[j].Removing? && s.processes[j].n == n
    ensures n in s.stages
  {
    hide StagingName, StagingSlot, StageOk, LocksMatch, NoSlot, RemovalOk;
    assert PhaseOk(s, s.processes[j]);
  }

  /** No process outlives a machine crash. */
  lemma CrashEnds(s: System, s1: System, k: nat, ev: Event, j: nat)
    requires Next(s, s1, k, ev) && j in s1.processes
    ensures !ev.Crash?
  {
  }

  /** It does happen: a transfer dies after making its directory, a recovery finds nothing in it that is not the
      protocol's own, an entry appears, and the second pass unlinks it. */
  lemma ForeignLost(n: string, e: string) returns (tr: seq<System>, ev: seq<(nat, Event)>)
    requires StagingName(n) && !Familiar(e)
    ensures Steps(tr, ev) && tr[0] == NO_STAGING && |ev| == 10
    ensures ev[8].1 == Tamper(n, e) && ev[9] == (1, Unlink(n, false, e))
    ensures Holds(tr[9], n, e) && !Holds(tr[10], n, e)
  {
    hide StagingName, StagingSlot, Steps;
    var before, late;
    tr, ev, before := DiesEarly(n);
    var s2 := At(At(before, 1, Waiting), 1, Holding).(coordinator := Some(1));
    tr, ev := OneMore(tr, ev, At(before, 1, Waiting), 1, Start);
    tr, ev := OneMore(tr, ev, s2, 1, Coordinate);
    tr, ev := OneMore(tr, ev, At(s2, 1, Removing(n, Validating, false)), 1, Reap(n));
    late := At(s2, 1, Removing(n, Removal.Unlinking, false));
    tr, ev := OneMore(tr, ev, late, 1, Validate(n, false));
    var s5 := WithStage(late, n, Add(EMPTY_DIR, e)).(tampered := {n});
    tr, ev := OneMore(tr, ev, s5, 1, Tamper(n, e));
    tr, ev := OneMore(tr, ev, WithStage(s5, n, Drop(Add(EMPTY_DIR, e), e)), 1, Unlink(n, false, e));
  }

  /** A transfer that dies with an empty directory. */
  lemma DiesEarly(n: string) returns (tr: seq<System>, ev: seq<(nat, Event)>, last: System)
    requires StagingName(n)
    ensures Steps(tr, ev) && |ev| == 4 && |tr| == 5 && tr[0] == NO_STAGING && tr[4] == last
    ensures last == NO_STAGING.(home := Add(EMPTY_DIR, n), stages := map[n := EMPTY_DIR])
  {
    hide StagingName, StagingSlot, Steps;
    tr, ev := [NO_STAGING], [];
    assert Steps(tr, ev) by {
      NoSteps(NO_STAGING);
    }
    var s2 := At(NO_STAGING, 0, Holding).(coordinator := Some(0));
    tr, ev := OneMore(tr, ev, At(NO_STAGING, 0, Waiting), 0, Start);
    tr, ev := OneMore(tr, ev, s2, 0, Coordinate);
    var s3 := At(WithStage(s2, n, EMPTY_DIR), 0, Made(n)).(home := Add(s2.home, n));
    tr, ev := OneMore(tr, ev, s3, 0, Make(n));
    last := NO_STAGING.(home := Add(EMPTY_DIR, n), stages := map[n := EMPTY_DIR]);
    DiesMaking(s3, n);
    tr, ev := OneMore(tr, ev, last, 0, Die);
  }

  lemma DiesMaking(s: System, n: string)
    requires s == System(Add(EMPTY_DIR, n), map[n := EMPTY_DIR], Some(0), map[], map[0 := Made(n)], {})
    ensures Next(s, NO_STAGING.(home := Add(EMPTY_DIR, n), stages := map[n := EMPTY_DIR]), 0, Die)
  {
    assert s.processes - {0} == map[];
  }

  lemma NoSteps(s: System)
    ensures Steps([s], [])
  {
  }

  lemma OneMore(tr: seq<System>, ev: seq<(nat, Event)>, s1: System, j: nat, e: Event)
    returns (tr1: seq<System>, ev1: seq<(nat, Event)>)
    requires Steps(tr, ev) && Next(tr[|tr| - 1], s1, j, e)
    ensures tr1 == tr + [s1] && ev1 == ev + [(j, e)] && Steps(tr1, ev1) && |tr| == |ev| + 1
  {
    hide Next;
    tr1, ev1 := tr + [s1], ev + [(j, e)];
    forall i | 0 <= i < |ev1|
      ensures Next(tr1[i], tr1[i + 1], ev1[i].0, ev1[i].1)
    {
      if i < |ev| {
        assert tr1[i] == tr[i] && tr1[i + 1] == tr[i + 1] && ev1[i] == ev[i];
      }
    }
  }

  // ---- error-free passes ----

  /** recoverStage would take the stage now: its name is one of the protocol's, and its lease is missing or free. */
  predicate MayReap(s: System, n: string) {
    n in s.home.now && n in s.stages && StagingName(n) && (LEASE in s.stages[n].now ==> n !in s.leases)
  }

  /** The pass came to the stage: it reaped it, or the stage was not there any more or still leased. */
  ghost predicate Visited(tr: seq<System>, ev: seq<(nat, Event)>, j: nat, n: string)
    requires |tr| == |ev| + 1
  {
    exists i :: 0 <= i < |tr| && VisitedAt(tr, ev, j, n, i)
  }

  predicate VisitedAt(tr: seq<System>, ev: seq<(nat, Event)>, j: nat, n: string, i: nat)
    requires |tr| == |ev| + 1 && i < |tr|
  {
    Is(tr[i], j, Holding) && ((i < |ev| && ev[i] == (j, Reap(n))) || !MayReap(tr[i], n))
  }

  predicate InRecovery(s: System, j: nat) {
    j in s.processes && (s.processes[j].Holding? || (s.processes[j].Removing? && !s.processes[j].closing))
  }

  /** A process goes through recoverStaging without an error; other processes do what they like meanwhile. */
  ghost predicate Recovers(tr: seq<System>, ev: seq<(nat, Event)>, j: nat) {
    Steps(tr, ev) && (forall i | 0 <= i < |tr| :: InRecovery(tr[i], j)) &&
    forall i | 0 <= i < |ev| :: !ev[i].1.Crash? && (ev[i].0 == j ==> !ev[i].1.Fail?)
  }

  /** A whole pass: every staging directory that was in the home when it began has been visited. */
  ghost predicate Pass(tr: seq<System>, ev: seq<(nat, Event)>, j: nat) {
    Recovers(tr, ev, j) && Is(tr[0], j, Holding) && Is(tr[|tr| - 1], j, Holding) &&
    forall n | n in tr[0].home.now && StagingName(n) :: Visited(tr, ev, j, n)
  }

  /** Between the abandonment of a stage and its durable end. */
  predicate Clearing(s: System, j: nat, n: string) {
    n in s.stages && (n in s.home.maybe ==> j in s.processes && RemovingPhase(s.processes[j], n))
  }

  predicate RemovingPhase(p: Phase, n: string) {
    p.Removing? && p.n == n && !p.closing
  }

  /** What is being cleared goes on being cleared. */
  lemma ClearingStep(s: System, s1: System, k: nat, ev: Event, j: nat, n: string)
    requires Inv(s) && Next(s, s1, k, ev) && !ev.Crash? && (k == j ==> !ev.Fail?) && InRecovery(s1, j)
    requires Clearing(s, j, n) && n !in s.tampered
    ensures Clearing(s1, j, n)
  {
    hide Inv, Next, Clearing, InRecovery;
    if OfRemoval(ev) {
      ClearingRemoving(s, s1, k, ev, j, n);
    } else {
      ClearingElse(s, s1, k, ev, j, n);
    }
  }

  lemma ClearingRemoving(s: System, s1: System, k: nat, ev: Event, j: nat, n: string)
    requires Inv(s) && Next(s, s1, k, ev) && OfRemoval(ev) && (k == j ==> !ev.Fail?) && InRecovery(s1, j)
    requires Clearing(s, j, n) && n !in s.tampered
    ensures Clearing(s1, j, n)
  {
    hide StagingName, StagingSlot, NoSlot, SlotsMarked, FamiliarOnly, ValidLayout;
    assert j in s.processes ==> PhaseOk(s, s.processes[j]);
    UntamperedLayout(s, n);
  }

  lemma ClearingElse(s: System, s1: System, k: nat, ev: Event, j: nat, n: string)
    requires Inv(s) && Next(s, s1, k, ev) && !OfRemoval(ev) && !ev.Crash? && (k == j ==> !ev.Fail?) && InRecovery(s1, j)
    requires Clearing(s, j, n) && n !in s.tampered
    ensures Clearing(s1, j, n)
  {
    hide StagingName, StagingSlot, NoSlot, SlotsMarked, FamiliarOnly, ValidLayout, StageOk;
    assert j in s.processes ==> PhaseOk(s, s.processes[j]);
  }

  /** While one process is in recovery, the others neither create, close nor remove a stage. */
  lemma OthersLeave(s: System, s1: System, k: nat, ev: Event, j: nat, n: string)
    requires LocksMatch(s) && Next(s, s1, k, ev) && !ev.Crash? && k != j && InRecovery(s, j) && Abandoned(s, n)
    ensures Abandoned(s1, n)
  {
    hide StagingName, StagingSlot, ValidLayout, Familiar;
    assert s.coordinator == Some(j);
    assert k in s.processes ==> !Coordinated(s.processes[k]);
  }

  /** Until the pass has come to it, an abandoned stage stays abandoned. */
  lemma AbandonedStep(s: System, s1: System, k: nat, ev: Event, j: nat, n: string)
    requires Inv(s) && Next(s, s1, k, ev) && !ev.Crash? && InRecovery(s, j) && InRecovery(s1, j) && Abandoned(s, n)
    ensures Abandoned(s1, n) || Clearing(s1, j, n)
    ensures (k, ev) == (j, Reap(n)) ==> Clearing(s1, j, n)
  {
    hide StagingName, StagingSlot, NoSlot, StageOk, PhaseOk, ValidLayout, Familiar;
    if k != j {
      OthersLeave(s, s1, k, ev, j, n);
    } else {
      RecovererMoves(s, s1, j, ev, n);
    }
  }

  lemma RecovererMoves(s: System, s1: System, j: nat, ev: Event, n: string)
    requires Next(s, s1, j, ev) && !ev.Crash? && InRecovery(s, j) && InRecovery(s1, j) && Abandoned(s, n)
    ensures Abandoned(s1, n) || Clearing(s1, j, n)
    ensures ev == Reap(n) ==> Clearing(s1, j, n)
  {
    hide Next, InRecovery, Abandoned, Clearing;
    if OfRemoval(ev) {
      RecovererRemoves(s, s1, j, ev, n);
    } else {
      RecovererElse(s, s1, j, ev, n);
    }
  }

  lemma RecovererRemoves(s: System, s1: System, j: nat, ev: Event, n: string)
    requires Next(s, s1, j, ev) && OfRemoval(ev) && InRecovery(s, j) && InRecovery(s1, j) && Abandoned(s, n)
    ensures Abandoned(s1, n) || Clearing(s1, j, n)
    ensures ev == Reap(n) ==> Clearing(s1, j, n)
  {
    hide StagingName, StagingSlot, ValidLayout, Familiar;
  }

  lemma RecovererElse(s: System, s1: System, j: nat, ev: Event, n: string)
    requires Next(s, s1, j, ev) && !OfRemoval(ev) && !ev.Crash?
    requires InRecovery(s, j) && InRecovery(s1, j) && Abandoned(s, n)
    ensures Abandoned(s1, n)
  {
    hide StagingName, StagingSlot, ValidLayout, Familiar;
  }

  lemma TamperedStays(s: System, s1: System, k: nat, ev: Event, n: string)
    requires Next(s, s1, k, ev) && n in s.tampered
    ensures n in s1.tampered
  {
    hide StagingName, StagingSlot, ValidLayout;
  }

  lemma {:induction false} UntamperedBefore(tr: seq<System>, ev: seq<(nat, Event)>, i: nat, n: string)
    requires Steps(tr, ev) && i < |tr| && n !in tr[|tr| - 1].tampered
    ensures n !in tr[i].tampered
    decreases |tr| - i
  {
    hide Next;
    if i < |ev| {
      UntamperedBefore(tr, ev, i + 1, n);
      assert Next(tr[i], tr[i + 1], ev[i].0, ev[i].1);
      if n in tr[i].tampered {
        TamperedStays(tr[i], tr[i + 1], ev[i].0, ev[i].1, n);
      }
    }
  }

  lemma {:induction false} AbandonedUntil(tr: seq<System>, ev: seq<(nat, Event)>, j: nat, n: string, i: nat)
    requires Pass(tr, ev, j) && Inv(tr[0]) && Abandoned(tr[0], n) && n !in tr[|tr| - 1].tampered && i < |tr|
    ensures Abandoned(tr[i], n) || Clearing(tr[i], j, n)
  {
    hide Next, Inv, Clearing, Abandoned, StagingName, InRecovery;
    if i > 0 {
      AbandonedUntil(tr, ev, j, n, i - 1);
      StepsInv(tr, ev, i - 1);
      UntamperedBefore(tr, ev, i - 1, n);
      assert Next(tr[i - 1], tr[i - 1 + 1], ev[i - 1].0, ev[i - 1].1);
      assert InRecovery(tr[i - 1], j) && InRecovery(tr[i], j);
      if Abandoned(tr[i - 1], n) {
        AbandonedStep(tr[i - 1], tr[i], ev[i - 1].0, ev[i - 1].1, j, n);
      } else {
        ClearingStep(tr[i - 1], tr[i], ev[i - 1].0, ev[i - 1].1, j, n);
      }
    }
  }

  lemma {:induction false} ClearingFrom(tr: seq<System>, ev: seq<(nat, Event)>, j: nat, n: string, v: nat, i: nat)
    requires Pass(tr, ev, j) && Inv(tr[0]) && n !in tr[|tr| - 1].tampered && v <= i < |tr| && Clearing(tr[v], j, n)
    ensures Clearing(tr[i], j, n)
  {
    hide Next, Inv, Clearing, StagingName, InRecovery;
    if i > v {
      ClearingFrom(tr, ev, j, n, v, i - 1);
      StepsInv(tr, ev, i - 1);
      UntamperedBefore(tr, ev, i - 1, n);
      assert Next(tr[i - 1], tr[i - 1 + 1], ev[i - 1].0, ev[i - 1].1);
      assert InRecovery(tr[i], j);
      ClearingStep(tr[i - 1], tr[i], ev[i - 1].0, ev[i - 1].1, j, n);
    }
  }

  /** An abandoned stage may be reaped. */
  lemma AbandonedMayReap(s: System, n: string)
    requires Inv(s) && Abandoned(s, n)
    ensures MayReap(s, n)
  {
    hide StagingName, StagingSlot;
    assert StageOk(s, n);
  }

  lemma StageCleared(tr: seq<System>, ev: seq<(nat, Event)>, j: nat, n: string)
    requires Pass(tr, ev, j) && Inv(tr[0]) && Abandoned(tr[0], n) && n !in tr[|tr| - 1].tampered
    ensures n !in tr[|tr| - 1].home.now && n !in tr[|tr| - 1].home.maybe
  {
    hide Next, Inv, Clearing, Abandoned, StagingName, MayReap;
    StepsInv(tr, ev, |tr| - 1);
    AbandonedMayReap(tr[0], n);
    Named(tr[0], n);
    assert Visited(tr, ev, j, n);
    var i :| 0 <= i < |tr| && VisitedAt(tr, ev, j, n, i);
    AbandonedUntil(tr, ev, j, n, i);
    StepsInv(tr, ev, i);
    if Abandoned(tr[i], n) {
      AbandonedMayReap(tr[i], n);
      assert Next(tr[i], tr[i + 1], ev[i].0, ev[i].1) && InRecovery(tr[i], j) && InRecovery(tr[i + 1], j);
      AbandonedStep(tr[i], tr[i + 1], ev[i].0, ev[i].1, j, n);
      ClearingFrom(tr, ev, j, n, i + 1, |tr| - 1);
    } else {
      ClearingFrom(tr, ev, j, n, i, |tr| - 1);
    }
    ClearedHome(tr[|tr| - 1], j, n);
  }

  lemma Named(s: System, n: string)
    requires MayReap(s, n)
    ensures n in s.home.now && StagingName(n)
  {
    hide StagingName;
  }

  /** Recovery completeness: whichever steps transfers, removals and the machine died in, when a pass of recoverStaging
      ends without an error, every stage that was abandoned when it began, and that nothing foreign has touched, is
      gone from the home, and no machine crash brings it back. */
  lemma PassClears(tr: seq<System>, ev: seq<(nat, Event)>, j: nat)
    requires Pass(tr, ev, j) && Reachable(tr[0])
    ensures forall n | Abandoned(tr[0], n) && n !in tr[|tr| - 1].tampered ::
              n !in tr[|tr| - 1].home.now && n !in tr[|tr| - 1].home.maybe
  {
    hide Next, Inv, Abandoned, StagingName, Visited;
    ReachableInv(tr[0]);
    forall n | Abandoned(tr[0], n) && n !in tr[|tr| - 1].tampered
      ensures n !in tr[|tr| - 1].home.now && n !in tr[|tr| - 1].home.maybe
    {
      StageCleared(tr, ev, j, n);
    }
  }

  lemma ClearedHome(s: System, j: nat, n: string)
    requires Inv(s) && Is(s, j, Holding) && Clearing(s, j, n)
    ensures n !in s.home.now && n !in s.home.maybe
  {
    hide StagingName, StagingSlot, StageOk, PhaseOk, LocksMatch;
  }

  // ---- such a pass is always possible ----

  lemma GoOn(tr: seq<System>, ev: seq<(nat, Event)>, j: nat, s1: System, e: Event)
    returns (tr1: seq<System>, ev1: seq<(nat, Event)>)
    requires Recovers(tr, ev, j) && Next(tr[|tr| - 1], s1, j, e) && !e.Crash? && !e.Fail? && InRecovery(s1, j)
    ensures Recovers(tr1, ev1, j) && tr <= tr1 && ev <= ev1 && tr1[|tr1| - 1] == s1
    ensures |tr1| == |ev1| + 1 == |tr| + 1 == |ev| + 2 && ev1[|ev|] == (j, e)
  {
    hide Next, InRecovery, Steps;
    tr1, ev1 := OneMore(tr, ev, s1, j, e);
    forall i | 0 <= i < |tr1|
      ensures InRecovery(tr1[i], j)
    {
      assert i < |tr| ==> tr1[i] == tr[i];
    }
    forall i | 0 <= i < |ev1|
      ensures !ev1[i].1.Crash? && (ev1[i].0 == j ==> !ev1[i].1.Fail?)
    {
      assert i < |ev| ==> ev1[i] == ev[i];
    }
  }

  predicate Emptying(s: System, s1: System, j: nat, n: string) {
    Is(s1, j, Removing(n, Removal.Unlinking, false)) && n in s1.stages && s1 == WithStage(s, n, s1.stages[n]) &&
    s1.stages[n].now <= {LEASE}
  }

  /** Every payload can be unlinked. */
  lemma {:induction false} UnlinkAll(tr: seq<System>, ev: seq<(nat, Event)>, j: nat, n: string)
    returns (tr1: seq<System>, ev1: seq<(nat, Event)>)
    requires Recovers(tr, ev, j) && |tr| == |ev| + 1
    requires Is(tr[|tr| - 1], j, Removing(n, Removal.Unlinking, false)) && n in tr[|tr| - 1].stages
    ensures Recovers(tr1, ev1, j) && |tr1| == |ev1| + 1 && tr <= tr1 && ev <= ev1
    ensures Emptying(tr[|tr| - 1], tr1[|tr1| - 1], j, n)
    decreases tr[|tr| - 1].stages[n].now
  {
    hide Recovers;
    var s := tr[|tr| - 1];
    if s.stages[n].now <= {LEASE} {
      tr1, ev1 := tr, ev;
      assert s == WithStage(s, n, s.stages[n]);
    } else {
      var e :| e in s.stages[n].now && e != LEASE;
      var s1 := WithStage(s, n, Drop(s.stages[n], e));
      assert Next(s, s1, j, Unlink(n, false, e));
      var t, v := GoOn(tr, ev, j, s1, Unlink(n, false, e));
      tr1, ev1 := UnlinkAll(t, v, j, n);
    }
  }

  /** From the last unlinked payload to the durable end of the stage. */
  lemma FinishRemoval(tr: seq<System>, ev: seq<(nat, Event)>, j: nat, n: string)
    returns (tr1: seq<System>, ev1: seq<(nat, Event)>)
    requires Recovers(tr, ev, j) && |tr| == |ev| + 1
    requires Is(tr[|tr| - 1], j, Removing(n, Removal.Unlinking, false)) && n in tr[|tr| - 1].stages
    requires tr[|tr| - 1].stages[n].now <= {LEASE}
    ensures Recovers(tr1, ev1, j) && |tr1| == |ev1| + 1 && tr <= tr1 && ev <= ev1
    ensures Is(tr1[|tr1| - 1], j, Holding)
  {
    hide Recovers;
    var s := tr[|tr| - 1];
    var s1 := At(WithStage(s, n, Synced(s.stages[n])), j, Removing(n, Emptied, false));
    tr1, ev1 := GoOn(tr, ev, j, s1, SyncEmpty(n, false));
    var s2 := At(WithStage(s1, n, Drop(s1.stages[n], LEASE)), j, Removing(n, Unmarked, false));
    tr1, ev1 := GoOn(tr1, ev1, j, s2, DropLease(n, false));
    var s3 := At(WithStage(s2, n, Synced(s2.stages[n])), j, Removing(n, Cleared, false));
    tr1, ev1 := GoOn(tr1, ev1, j, s3, SyncUnmarked(n, false));
    var s4 := At(s3.(home := Drop(s3.home, n)), j, Removing(n, Gone, false));
    tr1, ev1 := GoOn(tr1, ev1, j, s4, RemoveDirectory(n, false));
    tr1, ev1 := GoOn(tr1, ev1, j, After(s4.(home := Synced(s4.home)), j, false), SyncHome(n, false));
  }

  /** One stage is visited, whatever its layout. */
  lemma Visit(tr: seq<System>, ev: seq<(nat, Event)>, j: nat, n: string)
    returns (tr1: seq<System>, ev1: seq<(nat, Event)>)
    requires Recovers(tr, ev, j) && |tr| == |ev| + 1 && Is(tr[|tr| - 1], j, Holding)
    ensures Recovers(tr1, ev1, j) && |tr1| == |ev1| + 1 && tr <= tr1 && ev <= ev1
    ensures Is(tr1[|tr1| - 1], j, Holding) && Visited(tr1, ev1, j, n)
  {
    hide Recovers, StagingName, ValidLayout;
    var s := tr[|tr| - 1];
    if MayReap(s, n) {
      var s1 := At(s, j, Removing(n, Validating, false));
      tr1, ev1 := GoOn(tr, ev, j, s1, Reap(n));
      ghost var reaped := ev1;
      if ValidLayout(s.stages[n].now) {
        tr1, ev1 := GoOn(tr1, ev1, j, At(s1, j, Removing(n, Removal.Unlinking, false)), Validate(n, false));
        tr1, ev1 := UnlinkAll(tr1, ev1, j, n);
        tr1, ev1 := FinishRemoval(tr1, ev1, j, n);
      } else {
        tr1, ev1 := GoOn(tr1, ev1, j, After(s1, j, false), Validate(n, false));
      }
      assert reaped <= ev1 && ev1[|ev|] == (j, Reap(n)) && tr1[|ev|] == s;
      assert VisitedAt(tr1, ev1, j, n, |ev|);
    } else {
      tr1, ev1 := tr, ev;
      assert VisitedAt(tr1, ev1, j, n, |ev|);
    }
  }

  lemma VisitedStays(tr: seq<System>, ev: seq<(nat, Event)>, tr1: seq<System>, ev1: seq<(nat, Event)>, j: nat,
                     n: string)
    requires |tr| == |ev| + 1 && |tr1| == |ev1| + 1 && tr <= tr1 && ev <= ev1 && Visited(tr, ev, j, n)
    ensures Visited(tr1, ev1, j, n)
  {
    hide MayReap;
    var i :| 0 <= i < |tr| && VisitedAt(tr, ev, j, n, i);
    assert VisitedAt(tr1, ev1, j, n, i);
  }

  lemma {:induction false} VisitAll(tr: seq<System>, ev: seq<(nat, Event)>, j: nat, names: set<string>)
    returns (tr1: seq<System>, ev1: seq<(nat, Event)>)
    requires Recovers(tr, ev, j) && |tr| == |ev| + 1 && Is(tr[|tr| - 1], j, Holding)
    ensures Recovers(tr1, ev1, j) && |tr1| == |ev1| + 1 && tr <= tr1 && ev <= ev1 && Is(tr1[|tr1| - 1], j, Holding)
    ensures forall n | n in names :: Visited(tr1, ev1, j, n)
    decreases names
  {
    hide Recovers, Visited;
    if names == {} {
      tr1, ev1 := tr, ev;
    } else {
      var n :| n in names;
      var t, v := Visit(tr, ev, j, n);
      tr1, ev1 := VisitAll(t, v, j, names - {n});
      VisitedStays(t, v, tr1, ev1, j, n);
    }
  }

  /** Whatever state the home is in, a process that has the coordinator can make a whole pass by its own steps. */
  lemma PassExists(s: System, j: nat) returns (tr: seq<System>, ev: seq<(nat, Event)>)
    requires Is(s, j, Holding)
    ensures Pass(tr, ev, j) && tr[0] == s
  {
    hide Recovers, Visited, StagingName;
    tr, ev := [s], [];
    assert Recovers(tr, ev, j) by {
      AtRest(s, j);
    }
    tr, ev := VisitAll(tr, ev, j, s.home.now);
  }

  lemma AtRest(s: System, j: nat)
    requires Is(s, j, Holding)
    ensures Recovers([s], [], j)
  {
    NoSteps(s);
  }

  // ---- the directories themselves ----

  /** What the protocol's creations put on disk, and what something foreign does: the lease and the slots are made as
      new regular files, and nothing writes to the lease or links it. */
  function Drawn(s: System, inode: string -> nat, other: (string, string) -> Entry, n: string): Directory
    requires n in s.stages
  {
    Directory(true, map e | e in s.stages[n].now ::
                if e == LEASE then Entry(inode(n), true, true, 1)
                else if StagingSlot(e) then other(n, e).(regular := true)
                else other(n, e))
  }

  /** The staging directories of a state, as recoverStaging meets them. */
  function Picture(s: System, inode: string -> nat, other: (string, string) -> Entry): map<string, Directory> {
    map n | n in s.home.now && n in s.stages :: Drawn(s, inode, other, n)
  }

  function LockedInodes(s: System, inode: string -> nat): set<nat> {
    set n | n in s.leases :: inode(n)
  }

  /** The two halves of the staging model agree: in every reachable state, the pass of recoverStaging over the
      directories of that state keeps exactly the stages whose lease is held and those with an entry the protocol does
      not know. */
  lemma PassOverPicture(s: System, inode: string -> nat, other: (string, string) -> Entry, n: string)
    requires Reachable(s) && n in s.home.now && forall m, k | inode(m) == inode(k) :: m == k
    ensures n in s.stages && (n in Keep(Picture(s, inode, other), LockedInodes(s, inode), s.home.now) <==>
            n in s.leases || exists e | e in s.stages[n].now :: !Familiar(e))
  {
    hide StagingSlot, StagingName, Keep, ValidLayout, Next;
    ReachableInv(s);
    assert StageOk(s, n);
    if n in s.leases {
      LiveHasLease(s, s.processes[s.leases[n]], n);
    }
    var d := Drawn(s, inode, other, n);
    DrawnRemovable(s, inode, other, n);
    assert Reapable(d, LockedInodes(s, inode)) <==> n !in s.leases && Removable(d.entries);
    if forall e | e in s.stages[n].now :: Familiar(e) {
      FamiliarLayout(s, n);
    } else {
      var e :| e in s.stages[n].now && !Familiar(e);
      UnfamiliarLayout(s.stages[n].now, e);
    }
  }

  lemma UnfamiliarLayout(entries: set<string>, e: string)
    requires e in entries && !Familiar(e)
    ensures !ValidLayout(entries)
  {
  }

  /** The layout the protocol accepts by names is the one removeStaging accepts of those entries. */
  lemma DrawnRemovable(s: System, inode: string -> nat, other: (string, string) -> Entry, n: string)
    requires n in s.stages
    ensures Removable(Drawn(s, inode, other, n).entries) <==> ValidLayout(s.stages[n].now)
  {
    hide StagingSlot;
    var entries := Drawn(s, inode, other, n).entries;
    assert entries.Keys == s.stages[n].now;
  }
}
