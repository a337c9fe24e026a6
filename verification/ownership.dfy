// The staging ownership protocol: transfers, recoveries, process crashes and machine crashes in any interleaving.
// internal/session/stage.go and stage_recovery.go.

module Ownership {
  import opened Model
  import opened Format
  import opened Slots
  import opened Staging

  // ---- directories that can lose unsynced changes ----

  /** What a directory lists now, what it lists for certain after a machine crash, and what it may list then. */
  datatype Dir = Dir(now: set<string>, sure: set<string>, maybe: set<string>)

  const EMPTY_DIR := Dir({}, {}, {})

  function Add(d: Dir, name: string): Dir {
    d.(now := d.now + {name}, maybe := d.maybe + {name})
  }

  function Drop(d: Dir, name: string): Dir {
    d.(now := d.now - {name}, sure := d.sure - {name})
  }

  function Synced(d: Dir): Dir {
    Dir(d.now, d.now, d.now)
  }

  /** A directory as some machine crash may leave it. */
  predicate Survives(d: Dir, after: Dir) {
    d.sure <= after.now <= d.maybe && after == Synced(after)
  }

  predicate Consistent(d: Dir) {
    d.sure <= d.now <= d.maybe
  }

  // ---- processes ----

  /** Where removeStaging stands: validating, unlinking payloads, then with the payloads' removal durable, the lease
      gone, that durable too, and the directory gone. */
  datatype Removal = Validating | Unlinking | Emptied | Unmarked | Cleared | Gone

  /** `Holding` and everything down to `Durable` happen under the coordinator. A transfer makes its directory, its
      lease file, locks it and makes both durable; from then on it is live until it closes or dies. */
  datatype Phase =
    | Waiting
    | Holding
    | Removing(n: string, step: Removal, closing: bool)
    | Made(n: string)
    | Leased(n: string)
    | Locked(n: string)
    | LeaseDurable(n: string)
    | Live(n: string, slots: set<string>)
    | Ended

  /** `tampered` are stages something foreign has put an unfamiliar entry into. */
  datatype System = System(
    home: Dir,
    stages: map<string, Dir>,
    coordinator: Option<nat>,
    leases: map<string, nat>,
    processes: map<nat, Phase>,
    tampered: set<string>)

  predicate Coordinated(p: Phase) {
    p.Holding? || p.Removing? || p.Made? || p.Leased? || p.Locked? || p.LeaseDurable?
  }

  predicate Locking(p: Phase, n: string) {
    (p.Locked? && p.n == n) || (p.LeaseDurable? && p.n == n) || (p.Live? && p.n == n)
  }

  predicate Owning(p: Phase, n: string) {
    (p.Made? && p.n == n) || (p.Leased? && p.n == n) || Locking(p, n)
  }

  function At(s: System, j: nat, p: Phase): System {
    s.(processes := s.processes[j := p])
  }

  function WithStage(s: System, n: string, d: Dir): System {
    s.(stages := s.stages[n := d])
  }

  // ---- the steps ----

  predicate Is(s: System, j: nat, p: Phase) {
    j in s.processes && s.processes[j] == p
  }

  predicate Starts(s: System, s1: System, j: nat) {
    j !in s.processes && s1 == At(s, j, Waiting)
  }

  predicate Coordinates(s: System, s1: System, j: nat) {
    Is(s, j, Waiting) && s.coordinator.None? && s1 == At(s, j, Holding).(coordinator := Some(j))
  }

  /** recoverStage found the lease missing or free; a held lease cannot be taken. */
  predicate Reaps(s: System, s1: System, j: nat, n: string) {
    Is(s, j, Holding) && n in s.home.now && n in s.stages && StagingName(n) && (LEASE in s.stages[n].now ==>
      n !in s.leases) &&
    s1 == At(s, j, Removing(n, Validating, false))
  }

  predicate ValidLayout(entries: set<string>) {
    (forall e | e in entries :: Familiar(e)) && ((exists e | e in entries :: e != LEASE) ==> LEASE in entries)
  }

  /** The validation passes, or the stage is preserved as it is. */
  predicate Validates(s: System, s1: System, j: nat, n: string, closing: bool) {
    Is(s, j, Removing(n, Validating, closing)) && n in s.stages &&
    s1 == if ValidLayout(s.stages[n].now) then At(s, j, Removing(n, Unlinking, closing)) else After(s, j, closing)
  }

  predicate Unlinks(s: System, s1: System, j: nat, n: string, closing: bool, e: string) {
    Is(s, j, Removing(n, Unlinking, closing)) && n in s.stages && e in s.stages[n].now && e != LEASE &&
    s1 == WithStage(s, n, Drop(s.stages[n], e))
  }

  predicate SyncsEmpty(s: System, s1: System, j: nat, n: string, closing: bool) {
    Is(s, j, Removing(n, Unlinking, closing)) && n in s.stages && s.stages[n].now <= {LEASE} &&
    s1 == At(WithStage(s, n, Synced(s.stages[n])), j, Removing(n, Emptied, closing))
  }

  predicate DropsLease(s: System, s1: System, j: nat, n: string, closing: bool) {
    Is(s, j, Removing(n, Emptied, closing)) && n in s.stages &&
    s1 == At(WithStage(s, n, Drop(s.stages[n], LEASE)), j, Removing(n, Unmarked, closing))
  }

  predicate SyncsUnmarked(s: System, s1: System, j: nat, n: string, closing: bool) {
    Is(s, j, Removing(n, Unmarked, closing)) && n in s.stages &&
    s1 == At(WithStage(s, n, Synced(s.stages[n])), j, Removing(n, Cleared, closing))
  }

  predicate RemovesDirectory(s: System, s1: System, j: nat, n: string, closing: bool) {
    Is(s, j, Removing(n, Cleared, closing)) && n in s.stages && s.stages[n].now == {} &&
    s1 == At(s.(home := Drop(s.home, n)), j, Removing(n, Gone, closing))
  }

  /** What follows a removal: recovery goes on, a closing transfer ends and lets go of the coordinator. */
  function After(s: System, j: nat, closing: bool): System {
    if closing then At(s, j, Ended).(coordinator := None) else At(s, j, Holding)
  }

  predicate SyncsHome(s: System, s1: System, j: nat, n: string, closing: bool) {
    Is(s, j, Removing(n, Gone, closing)) && s1 == After(s.(home := Synced(s.home)), j, closing)
  }

  /** An error anywhere in a removal leaves the rest for another pass. */
  predicate Fails(s: System, s1: System, j: nat, n: string, step: Removal, closing: bool) {
    Is(s, j, Removing(n, step, closing)) && s1 == After(s, j, closing)
  }

  /** A new directory under a name of sixteen fresh random bytes. */
  predicate Makes(s: System, s1: System, j: nat, n: string) {
    Is(s, j, Holding) && StagingName(n) && n !in s.stages && n !in s.home.maybe && n !in s.tampered &&
    s1 == At(WithStage(s, n, EMPTY_DIR), j, Made(n)).(home := Add(s.home, n))
  }

  predicate OpensLease(s: System, s1: System, j: nat, n: string) {
    Is(s, j, Made(n)) && n in s.stages && s1 == At(WithStage(s, n, Add(s.stages[n], LEASE)), j, Leased(n))
  }

  predicate LocksLease(s: System, s1: System, j: nat, n: string) {
    Is(s, j, Leased(n)) && n !in s.leases && s1 == At(s, j, Locked(n)).(leases := s.leases[n := j])
  }

  predicate SyncsStage(s: System, s1: System, j: nat, n: string) {
    Is(s, j, Locked(n)) && n in s.stages && s1 == At(WithStage(s, n, Synced(s.stages[n])), j, LeaseDurable(n))
  }

  /** staging returns: the home is synced and the coordinator released. */
  predicate Returns(s: System, s1: System, j: nat, n: string) {
    Is(s, j, LeaseDurable(n)) && s1 == At(s, j, Live(n, {})).(home := Synced(s.home), coordinator := None)
  }

  predicate CreatesSlot(s: System, s1: System, j: nat, n: string, slots: set<string>, e: string) {
    Is(s, j, Live(n, slots)) && n in s.stages && StagingSlot(e) && e !in s.stages[n].now &&
    s1 == At(WithStage(s, n, Add(s.stages[n], e)), j, Live(n, slots + {e}))
  }

  /** publishPrefix renames a slot out of the stage. */
  predicate RenamesOut(s: System, s1: System, j: nat, n: string, slots: set<string>, e: string) {
    Is(s, j, Live(n, slots)) && n in s.stages && e in slots &&
    s1 == At(WithStage(s, n, Drop(s.stages[n], e)), j, Live(n, slots - {e}))
  }

  /** Close with the coordinator: the lease is closed under it, then the stage removed. */
  predicate Closes(s: System, s1: System, j: nat, n: string, slots: set<string>) {
    Is(s, j, Live(n, slots)) && s.coordinator.None? &&
    s1 == At(s, j, Removing(n, Validating, true)).(coordinator := Some(j), leases := s.leases - {n})
  }

  /** Close without it: the stage is left to recovery. */
  predicate Orphans(s: System, s1: System, j: nat, n: string, slots: set<string>) {
    Is(s, j, Live(n, slots)) && s1 == At(s, j, Ended).(leases := s.leases - {n})
  }

  /** A process dies and the kernel drops its locks. */
  predicate Dies(s: System, s1: System, j: nat) {
    j in s.processes &&
    s1 == s.(processes := s.processes - {j},
             coordinator := if s.coordinator == Some(j) then None else s.coordinator,
             leases := map n | n in s.leases && s.leases[n] != j :: s.leases[n])
  }

  /** The machine dies: every process with it, and whatever was not synced may be lost or undone. */
  ghost predicate Crashes(s: System, s1: System) {
    s1.processes == map[] && s1.coordinator == None && s1.leases == map[] && s1.tampered == s.tampered &&
    Survives(s.home, s1.home) && s1.stages.Keys == s.stages.Keys &&
    forall n | n in s.stages :: Survives(s.stages[n], s1.stages[n])
  }

  /** Something foreign adds an entry the protocol does not know, at any moment the directory exists. */
  predicate Tampers(s: System, s1: System, n: string, e: string) {
    n in s.home.now && n in s.stages && !Familiar(e) &&
    s1 == WithStage(s, n, Add(s.stages[n], e)).(tampered := s.tampered + {n})
  }

  datatype Event =
    | Start | Coordinate | Reap(n: string) | Validate(n: string, closing: bool)
    | Unlink(n: string, closing: bool, e: string)
    | SyncEmpty(n: string, closing: bool) | DropLease(n: string, closing: bool) | SyncUnmarked(n: string, closing: bool)
    | RemoveDirectory(n: string, closing: bool) | SyncHome(n: string, closing: bool)
    | Fail(n: string, step: Removal, closing: bool)
    | Make(n: string) | OpenLease(n: string) | LockLease(n: string) | SyncStage(n: string) | Return(n: string)
    | CreateSlot(n: string, slots: set<string>, e: string) | RenameOut(n: string, slots: set<string>, e: string)
    | Close(n: string, slots: set<string>) | Orphan(n: string, slots: set<string>)
    | Die | Crash | Tamper(n: string, e: string)

  ghost predicate Next(s: System, s1: System, j: nat, e: Event) {
    match e
    case Start => Starts(s, s1, j)
    case Coordinate => Coordinates(s, s1, j)
    case Reap(n) => Reaps(s, s1, j, n)
    case Validate(n, closing) => Validates(s, s1, j, n, closing)
    case Unlink(n, closing, e) => Unlinks(s, s1, j, n, closing, e)
    case SyncEmpty(n, closing) => SyncsEmpty(s, s1, j, n, closing)
    case DropLease(n, closing) => DropsLease(s, s1, j, n, closing)
    case SyncUnmarked(n, closing) => SyncsUnmarked(s, s1, j, n, closing)
    case RemoveDirectory(n, closing) => RemovesDirectory(s, s1, j, n, closing)
    case SyncHome(n, closing) => SyncsHome(s, s1, j, n, closing)
    case Fail(n, step, closing) => Fails(s, s1, j, n, step, closing)
    case Make(n) => Makes(s, s1, j, n)
    case OpenLease(n) => OpensLease(s, s1, j, n)
    case LockLease(n) => LocksLease(s, s1, j, n)
    case SyncStage(n) => SyncsStage(s, s1, j, n)
    case Return(n) => Returns(s, s1, j, n)
    case CreateSlot(n, slots, e) => CreatesSlot(s, s1, j, n, slots, e)
    case RenameOut(n, slots, e) => RenamesOut(s, s1, j, n, slots, e)
    case Close(n, slots) => Closes(s, s1, j, n, slots)
    case Orphan(n, slots) => Orphans(s, s1, j, n, slots)
    case Die => Dies(s, s1, j)
    case Crash => Crashes(s, s1)
    case Tamper(n, e) => Tampers(s, s1, n, e)
  }

  // ---- the invariant ----

  /** Locks and the phases that hold them match. */
  predicate LocksMatch(s: System) {
    (s.coordinator.Some? ==> s.coordinator.value in s.processes && Coordinated(s.processes[s.coordinator.value])) &&
    (forall j | j in s.processes && Coordinated(s.processes[j]) :: s.coordinator == Some(j)) &&
    (forall n | n in s.leases :: s.leases[n] in s.processes && Locking(s.processes[s.leases[n]], n)) &&
    (forall j, n | j in s.processes && n in s.stages && Locking(s.processes[j], n) :: n in s.leases && s.leases[n] == j)
  }

  predicate FamiliarOnly(d: Dir) {
    forall e | e in d.maybe :: Familiar(e)
  }

  /** A stage that holds a slot, or may hold one after a crash, certainly holds its lease. */
  predicate SlotsMarked(d: Dir) {
    Consistent(d) && ((exists e | e in d.maybe :: StagingSlot(e)) ==> LEASE in d.sure)
  }

  predicate StageOk(s: System, n: string)
    requires n in s.stages
  {
    SlotsMarked(s.stages[n]) && (n in s.home.maybe ==> StagingName(n)) && (n !in s.tampered ==>
      FamiliarOnly(s.stages[n]))
  }

  /** What a process relies on. */
  predicate PhaseOk(s: System, p: Phase) {
    match p
    case Made(n) => n in s.stages && n in s.home.now && n !in s.leases && NoSlot(s.stages[n])
    case Leased(n) =>
      n in s.stages && n in s.home.now && n !in s.leases && LEASE in s.stages[n].now && NoSlot(s.stages[n])
    case Locked(n) => n in s.stages && n in s.home.now && LEASE in s.stages[n].now && NoSlot(s.stages[n])
    case LeaseDurable(n) => n in s.stages && n in s.home.now && LEASE in s.stages[n].sure && NoSlot(s.stages[n])
    case Live(n, slots) =>
      n in s.stages && n in s.home.sure && LEASE in s.stages[n].sure && slots <= s.stages[n].now && AllSlots(slots)
    case Removing(n, step, closing) =>
      n in s.stages && n !in s.leases && RemovalOk(s.stages[n], step) && (step == Gone ==> n !in s.home.now)
    case _ => true
  }

  predicate AllSlots(slots: set<string>) {
    forall e | e in slots :: StagingSlot(e)
  }

  predicate NoSlot(d: Dir) {
    forall e | e in d.maybe :: !StagingSlot(e)
  }

  /** A removal drops the lease after the last slot is durably gone, and the directory when it is empty. Entries that
      are not the protocol's own may appear throughout. */
  predicate RemovalOk(d: Dir, step: Removal) {
    (step == Emptied || step == Unmarked || step == Cleared || step == Gone ==> NoSlot(d)) &&
    (step == Unmarked || step == Cleared || step == Gone ==> LEASE !in d.now) &&
    (step == Gone ==> d.now == {})
  }

  ghost predicate Inv(s: System) {
    LocksMatch(s) && Consistent(s.home) && s.home.maybe <= s.stages.Keys &&
    (forall n | n in s.stages :: StageOk(s, n)) &&
    (forall j | j in s.processes :: PhaseOk(s, s.processes[j]))
  }

  // ---- every step keeps it ----

  /** The invariant of everything but one process and one stage carries over. */
  lemma Elsewhere(s: System, s1: System, j: nat, n: string)
    requires Inv(s) && LocksMatch(s1) && s1.home == s.home && s1.stages.Keys == s.stages.Keys &&
             s1.tampered == s.tampered
    requires forall m | m in s.stages && m != n :: s1.stages[m] == s.stages[m]
    requires n in s1.stages ==> StageOk(s1, n)
    requires forall k | k in s1.processes && k != j :: k in s.processes && s1.processes[k] == s.processes[k]
    requires forall k | k in s1.processes && k != j && PhaseOk(s, s1.processes[k]) :: PhaseOk(s1, s1.processes[k])
    requires j in s1.processes ==> PhaseOk(s1, s1.processes[j])
    ensures Inv(s1)
  {
    hide StagingName, StagingSlot, PhaseOk, SlotsMarked, FamiliarOnly, LocksMatch;
  }

  /** Nobody else relies on a stage that one process works on under the coordinator, unless its lease is held. */
  lemma OthersApart(s: System, j: nat, k: nat, n: string)
    requires LocksMatch(s) && j in s.processes && k in s.processes && k != j && Coordinated(s.processes[j])
    requires n in s.stages && n !in s.leases
    ensures !Owning(s.processes[k], n) && !s.processes[k].Removing?
  {
  }

  lemma PhaseElsewhere(s: System, s1: System, p: Phase, n: string)
    requires PhaseOk(s, p) && s1.home == s.home && s1.stages.Keys == s.stages.Keys
    requires forall m | m in s.stages && m != n :: s1.stages[m] == s.stages[m]
    requires forall m | m in s1.leases :: m in s.leases
    requires !Owning(p, n) && !(p.Removing? && p.n == n)
    ensures PhaseOk(s1, p)
  {
    hide StagingName, StagingSlot, NoSlot, RemovalOk;
  }

  /** Steps of a removal: only the removed stage and the remover change. */
  lemma RemovalKeeps(s: System, s1: System, j: nat, n: string, d: Dir, p: Phase)
    requires Inv(s) && j in s.processes && s.processes[j].Removing? && s.processes[j].n == n && n in s.stages
    requires s1 == At(WithStage(s, n, d), j, p) && p.Removing? && p.n == n
    requires SlotsMarked(d) && d.maybe <= s.stages[n].maybe && RemovalOk(d, p.step) && p.step != Gone
    ensures Inv(s1)
  {
    hide StagingName, StagingSlot, RemovalOk, SlotsMarked, NoSlot;
    assert PhaseOk(s, s.processes[j]) && StageOk(s, n);
    forall k | k in s1.processes && k != j && PhaseOk(s, s1.processes[k])
      ensures PhaseOk(s1, s1.processes[k])
    {
      OthersApart(s, j, k, n);
      PhaseElsewhere(s, s1, s1.processes[k], n);
    }
    Elsewhere(s, s1, j, n);
  }

  lemma UnlinksKeeps(s: System, s1: System, j: nat, n: string, closing: bool, e: string)
    requires Inv(s) && Unlinks(s, s1, j, n, closing, e)
    ensures Inv(s1)
  {
    hide StagingName, StagingSlot;
    assert PhaseOk(s, s.processes[j]) && StageOk(s, n);
    RemovalKeeps(s, s1, j, n, Drop(s.stages[n], e), s.processes[j]);
  }

  lemma SyncsEmptyKeeps(s: System, s1: System, j: nat, n: string, closing: bool)
    requires Inv(s) && SyncsEmpty(s, s1, j, n, closing)
    ensures Inv(s1)
  {
    hide StagingName, StagingSlot;
    assert PhaseOk(s, s.processes[j]) && StageOk(s, n);
    LeaseNotSlot();
    RemovalKeeps(s, s1, j, n, Synced(s.stages[n]), Removing(n, Emptied, closing));
  }

  lemma LeaseNotSlot()
    ensures !StagingSlot(LEASE)
  {
  }

  lemma DropsLeaseKeeps(s: System, s1: System, j: nat, n: string, closing: bool)
    requires Inv(s) && DropsLease(s, s1, j, n, closing)
    ensures Inv(s1)
  {
    hide StagingName, StagingSlot;
    assert PhaseOk(s, s.processes[j]) && StageOk(s, n);
    RemovalKeeps(s, s1, j, n, Drop(s.stages[n], LEASE), Removing(n, Unmarked, closing));
  }

  lemma SyncsUnmarkedKeeps(s: System, s1: System, j: nat, n: string, closing: bool)
    requires Inv(s) && SyncsUnmarked(s, s1, j, n, closing)
    ensures Inv(s1)
  {
    hide StagingName, StagingSlot;
    assert PhaseOk(s, s.processes[j]) && StageOk(s, n);
    RemovalKeeps(s, s1, j, n, Synced(s.stages[n]), Removing(n, Cleared, closing));
  }

  /** A live stage's name in the home does not depend on the removal of another. */
  lemma RemovesDirectoryKeeps(s: System, s1: System, j: nat, n: string, closing: bool)
    requires Inv(s) && RemovesDirectory(s, s1, j, n, closing)
    ensures Inv(s1)
  {
    hide StagingName, StagingSlot, NoSlot, SlotsMarked, FamiliarOnly;
    assert PhaseOk(s, s.processes[j]);
    forall k | k in s1.processes
      ensures PhaseOk(s1, s1.processes[k])
    {
      if k != j {
        assert PhaseOk(s, s.processes[k]);
        OthersApart(s, j, k, n);
      }
    }
    forall m | m in s1.stages
      ensures StageOk(s1, m)
    {
      assert StageOk(s, m);
    }
  }

  lemma AfterKeeps(s: System, j: nat, closing: bool)
    requires Inv(s) && j in s.processes && s.processes[j].Removing?
    ensures Inv(After(s, j, closing))
  {
    hide StagingName, StagingSlot, NoSlot, SlotsMarked, FamiliarOnly, RemovalOk;
    var s1 := After(s, j, closing);
    forall k | k in s1.processes
      ensures PhaseOk(s1, s1.processes[k])
    {
      assert k != j ==> PhaseOk(s, s.processes[k]);
    }
    forall m | m in s1.stages
      ensures StageOk(s1, m)
    {
      assert StageOk(s, m);
    }
  }

  lemma SyncHomeKeeps(s: System)
    requires Inv(s)
    ensures Inv(s.(home := Synced(s.home)))
  {
    hide StagingName, StagingSlot, NoSlot, SlotsMarked, FamiliarOnly, RemovalOk;
    var s1 := s.(home := Synced(s.home));
    forall k | k in s1.processes
      ensures PhaseOk(s1, s1.processes[k])
    {
      assert PhaseOk(s, s.processes[k]);
    }
    forall m | m in s1.stages
      ensures StageOk(s1, m)
    {
      assert StageOk(s, m);
    }
  }

  lemma ValidatesKeeps(s: System, s1: System, j: nat, n: string, closing: bool)
    requires Inv(s) && Validates(s, s1, j, n, closing)
    ensures Inv(s1)
  {
    hide StagingName, StagingSlot, SlotsMarked;
    if ValidLayout(s.stages[n].now) {
      assert PhaseOk(s, s.processes[j]) && StageOk(s, n);
      assert s == WithStage(s, n, s.stages[n]);
      RemovalKeeps(s, s1, j, n, s.stages[n], Removing(n, Unlinking, closing));
    } else {
      AfterKeeps(s, j, closing);
    }
  }

  /** Changes of phases and the coordinator alone. */
  lemma PhasesKeep(s: System, s1: System)
    requires Inv(s) && LocksMatch(s1) && s1.home == s.home && s1.stages == s.stages && s1.tampered == s.tampered
    requires forall k | k in s1.processes ::
              (k in s.processes && s1.processes[k] == s.processes[k]) || PhaseOk(s1, s1.processes[k])
    requires s1.leases == s.leases
    ensures Inv(s1)
  {
    hide StagingName, StagingSlot, NoSlot, SlotsMarked, FamiliarOnly, RemovalOk, LocksMatch;
    forall k | k in s1.processes
      ensures PhaseOk(s1, s1.processes[k])
    {
      if k in s.processes && s1.processes[k] == s.processes[k] {
        assert PhaseOk(s, s.processes[k]);
      }
    }
    forall m | m in s1.stages
      ensures StageOk(s1, m)
    {
      assert StageOk(s, m);
    }
  }

  lemma ReapsKeeps(s: System, s1: System, j: nat, n: string)
    requires Inv(s) && Reaps(s, s1, j, n)
    ensures Inv(s1)
  {
    hide StagingName, StagingSlot, NoSlot, SlotsMarked, FamiliarOnly;
    Unleased(s, j, n);
    PhasesKeep(s, s1);
  }

  /** Recovery takes only a stage whose lease nobody holds: a live stage has its lease file, and it is locked. */
  lemma Unleased(s: System, j: nat, n: string)
    requires Inv(s) && Is(s, j, Holding) && n in s.stages && (LEASE in s.stages[n].now ==> n !in s.leases)
    ensures n !in s.leases
  {
    hide StagingName, StagingSlot, NoSlot, FamiliarOnly, SlotsMarked;
    if n in s.leases {
      var k := s.leases[n];
      assert PhaseOk(s, s.processes[k]) && StageOk(s, n);
      LiveHasLease(s, s.processes[k], n);
    }
  }

  lemma LiveHasLease(s: System, p: Phase, n: string)
    requires PhaseOk(s, p) && Locking(p, n) && n in s.stages && SlotsMarked(s.stages[n])
    ensures LEASE in s.stages[n].now
  {
    hide StagingSlot, NoSlot;
  }

  lemma LeasedStage(s: System, n: string)
    requires Inv(s)
    ensures n in s.leases ==> n in s.stages
  {
    hide StagingName, StagingSlot, NoSlot, SlotsMarked, FamiliarOnly, RemovalOk;
    if n in s.leases {
      assert PhaseOk(s, s.processes[s.leases[n]]);
    }
  }

  lemma MakesKeeps(s: System, s1: System, j: nat, n: string)
    requires Inv(s) && Makes(s, s1, j, n)
    ensures Inv(s1)
  {
    hide StagingName, StagingSlot, RemovalOk;
    LeasedStage(s, n);
    forall k | k in s1.processes
      ensures PhaseOk(s1, s1.processes[k])
    {
      assert k != j ==> PhaseOk(s, s.processes[k]);
    }
    forall m | m in s1.stages
      ensures StageOk(s1, m)
    {
      assert m != n ==> StageOk(s, m);
    }
  }

  /** The steps by which the owner of a stage changes it. */
  lemma OwnerKeeps(s: System, s1: System, j: nat, n: string, d: Dir, p: Phase)
    requires Inv(s) && j in s.processes && Owning(s.processes[j], n) && n in s.stages
    requires s1 == At(WithStage(s, n, d), j, p) && Owning(p, n) && Coordinated(p) == Coordinated(s.processes[j])
    requires Locking(p, n) == Locking(s.processes[j], n)
    requires PhaseOk(s1, p) && SlotsMarked(d) && (FamiliarOnly(s.stages[n]) ==> FamiliarOnly(d))
    ensures Inv(s1)
  {
    hide StagingName, StagingSlot, RemovalOk, SlotsMarked, NoSlot, FamiliarOnly;
    assert StageOk(s, n);
    forall k | k in s1.processes && k != j && PhaseOk(s, s1.processes[k])
      ensures PhaseOk(s1, s1.processes[k])
    {
      OwnerAlone(s, j, k, n);
      PhaseElsewhere(s, s1, s1.processes[k], n);
    }
    OwnerLocks(s, s1, j, n);
    Elsewhere(s, s1, j, n);
  }

  lemma OwnerLocks(s: System, s1: System, j: nat, n: string)
    requires LocksMatch(s) && j in s.processes && j in s1.processes && Owning(s.processes[j], n) &&
             Owning(s1.processes[j], n)
    requires Coordinated(s1.processes[j]) == Coordinated(s.processes[j]) &&
             Locking(s1.processes[j], n) == Locking(s.processes[j], n)
    requires s1.processes.Keys == s.processes.Keys && s1.coordinator == s.coordinator && s1.leases == s.leases
    requires s1.stages.Keys == s.stages.Keys
    requires forall k | k in s.processes && k != j :: s1.processes[k] == s.processes[k]
    ensures LocksMatch(s1)
  {
  }

  /** No two processes own or remove the same stage. */
  lemma OwnerAlone(s: System, j: nat, k: nat, n: string)
    requires Inv(s) && j in s.processes && k in s.processes && k != j && Owning(s.processes[j], n) && n in s.stages
    ensures !Owning(s.processes[k], n) && !(s.processes[k].Removing? && s.processes[k].n == n)
  {
    hide StagingName, StagingSlot, RemovalOk, SlotsMarked, NoSlot, FamiliarOnly;
    assert PhaseOk(s, s.processes[k]) && PhaseOk(s, s.processes[j]);
  }

  lemma OpensLeaseKeeps(s: System, s1: System, j: nat, n: string)
    requires Inv(s) && OpensLease(s, s1, j, n)
    ensures Inv(s1)
  {
    hide StagingName, StagingSlot, RemovalOk;
    LeaseNotSlot();
    assert PhaseOk(s, s.processes[j]) && StageOk(s, n);
    OwnerKeeps(s, s1, j, n, Add(s.stages[n], LEASE), Leased(n));
  }

  lemma SyncsStageKeeps(s: System, s1: System, j: nat, n: string)
    requires Inv(s) && SyncsStage(s, s1, j, n)
    ensures Inv(s1)
  {
    hide StagingName, StagingSlot, RemovalOk;
    assert PhaseOk(s, s.processes[j]) && StageOk(s, n);
    OwnerKeeps(s, s1, j, n, Synced(s.stages[n]), LeaseDurable(n));
  }

  lemma CreatesSlotKeeps(s: System, s1: System, j: nat, n: string, slots: set<string>, e: string)
    requires Inv(s) && CreatesSlot(s, s1, j, n, slots, e)
    ensures Inv(s1)
  {
    hide StagingName, StagingSlot, RemovalOk;
    LeaseNotSlot();
    assert PhaseOk(s, s.processes[j]) && StageOk(s, n);
    OwnerKeeps(s, s1, j, n, Add(s.stages[n], e), Live(n, slots + {e}));
  }

  lemma RenamesOutKeeps(s: System, s1: System, j: nat, n: string, slots: set<string>, e: string)
    requires Inv(s) && RenamesOut(s, s1, j, n, slots, e)
    ensures Inv(s1)
  {
    hide StagingName, StagingSlot, RemovalOk;
    LeaseNotSlot();
    assert PhaseOk(s, s.processes[j]) && StageOk(s, n);
    OwnerKeeps(s, s1, j, n, Drop(s.stages[n], e), Live(n, slots - {e}));
  }

  lemma LocksLeaseKeeps(s: System, s1: System, j: nat, n: string)
    requires Inv(s) && LocksLease(s, s1, j, n)
    ensures Inv(s1)
  {
    hide StagingName, StagingSlot, NoSlot, SlotsMarked, FamiliarOnly, RemovalOk;
    assert PhaseOk(s, s.processes[j]);
    forall k | k in s1.processes
      ensures PhaseOk(s1, s1.processes[k])
    {
      if k != j {
        assert PhaseOk(s, s.processes[k]);
        OwnerAlone(s, j, k, n);
      }
    }
    forall m | m in s1.stages
      ensures StageOk(s1, m)
    {
      assert StageOk(s, m);
    }
  }

  lemma ReturnsKeeps(s: System, s1: System, j: nat, n: string)
    requires Inv(s) && Returns(s, s1, j, n)
    ensures Inv(s1)
  {
    hide StagingName, StagingSlot, NoSlot, SlotsMarked, FamiliarOnly, RemovalOk;
    assert PhaseOk(s, s.processes[j]);
    forall k | k in s1.processes
      ensures PhaseOk(s1, s1.processes[k])
    {
      assert k != j ==> PhaseOk(s, s.processes[k]);
    }
    forall m | m in s1.stages
      ensures StageOk(s1, m)
    {
      assert StageOk(s, m);
    }
  }

  lemma ClosesLocks(s: System, s1: System, j: nat, n: string, slots: set<string>)
    requires LocksMatch(s) && Closes(s, s1, j, n, slots)
    ensures LocksMatch(s1)
  {
  }

  lemma ClosingOk(s: System, n: string)
    requires n in s.stages && n !in s.leases
    ensures PhaseOk(s, Removing(n, Validating, true))
  {
    hide NoSlot;
  }

  lemma ClosesKeeps(s: System, s1: System, j: nat, n: string, slots: set<string>)
    requires Inv(s) && Closes(s, s1, j, n, slots)
    ensures Inv(s1)
  {
    hide StagingName, StagingSlot, StageOk, LocksMatch, NoSlot, RemovalOk;
    ClosesLocks(s, s1, j, n, slots);
    assert PhaseOk(s, s.processes[j]);
    forall k | k in s1.processes
      ensures PhaseOk(s1, s1.processes[k])
    {
      if k == j {
        ClosingOk(s1, n);
      } else {
        PhaseUnleased(s, s1, s.processes[k], n);
      }
    }
    forall m | m in s1.stages
      ensures StageOk(s1, m)
    {
      StageSame(s, s1, m);
    }
  }

  lemma DiesKeeps(s: System, s1: System, j: nat)
    requires Inv(s) && Dies(s, s1, j)
    ensures Inv(s1)
  {
    hide StagingName, StagingSlot, NoSlot, SlotsMarked, FamiliarOnly, RemovalOk;
    forall k | k in s1.processes
      ensures PhaseOk(s1, s1.processes[k])
    {
      assert PhaseOk(s, s.processes[k]);
    }
    forall m | m in s1.stages
      ensures StageOk(s1, m)
    {
      assert StageOk(s, m);
    }
  }

  lemma CrashesKeeps(s: System, s1: System)
    requires Inv(s) && Crashes(s, s1)
    ensures Inv(s1)
  {
    hide StagingName, StagingSlot;
    forall m | m in s1.stages
      ensures StageOk(s1, m)
    {
      assert StageOk(s, m) && Survives(s.stages[m], s1.stages[m]);
    }
  }

  lemma TampersKeeps(s: System, s1: System, n: string, e: string)
    requires Inv(s) && Tampers(s, s1, n, e)
    ensures Inv(s1)
  {
    hide StagingName, StagingSlot;
    forall k | k in s1.processes
      ensures PhaseOk(s1, s1.processes[k])
    {
      assert PhaseOk(s, s.processes[k]);
    }
    forall m | m in s1.stages
      ensures StageOk(s1, m)
    {
      assert StageOk(s, m);
    }
  }

  /** Whatever happens next, the invariant holds again. */
  lemma NextKeeps(s: System, s1: System, j: nat, e: Event)
    requires Inv(s) && Next(s, s1, j, e)
    ensures Inv(s1)
  {
    hide Inv, Starts, Coordinates, Reaps, Validates, Unlinks, SyncsEmpty, DropsLease, SyncsUnmarked, RemovesDirectory;
    hide SyncsHome, Fails, Makes, OpensLease, LocksLease, SyncsStage, Returns, CreatesSlot, RenamesOut, Closes, Orphans;
    hide Dies, Crashes, Tampers;
    match e
    case Start => StartsKeeps(s, s1, j);
    case Coordinate => CoordinatesKeeps(s, s1, j);
    case Reap(n) => ReapsKeeps(s, s1, j, n);
    case Validate(n, closing) => ValidatesKeeps(s, s1, j, n, closing);
    case Unlink(n, closing, e) => UnlinksKeeps(s, s1, j, n, closing, e);
    case SyncEmpty(n, closing) => SyncsEmptyKeeps(s, s1, j, n, closing);
    case DropLease(n, closing) => DropsLeaseKeeps(s, s1, j, n, closing);
    case SyncUnmarked(n, closing) => SyncsUnmarkedKeeps(s, s1, j, n, closing);
    case RemoveDirectory(n, closing) => RemovesDirectoryKeeps(s, s1, j, n, closing);
    case SyncHome(n, closing) => EndKeeps(s, s1, j, e);
    case Fail(n, step, closing) => EndKeeps(s, s1, j, e);
    case Make(n) => MakesKeeps(s, s1, j, n);
    case OpenLease(n) => OpensLeaseKeeps(s, s1, j, n);
    case LockLease(n) => LocksLeaseKeeps(s, s1, j, n);
    case SyncStage(n) => SyncsStageKeeps(s, s1, j, n);
    case Return(n) => ReturnsKeeps(s, s1, j, n);
    case CreateSlot(n, slots, e) => CreatesSlotKeeps(s, s1, j, n, slots, e);
    case RenameOut(n, slots, e) => RenamesOutKeeps(s, s1, j, n, slots, e);
    case Close(n, slots) => ClosesKeeps(s, s1, j, n, slots);
    case Orphan(n, slots) => OrphansKeeps(s, s1, j, n, slots);
    case Die => DiesKeeps(s, s1, j);
    case Crash => CrashesKeeps(s, s1);
    case Tamper(n, e) => TampersKeeps(s, s1, n, e);
  }

  lemma StartsKeeps(s: System, s1: System, j: nat)
    requires Inv(s) && Starts(s, s1, j)
    ensures Inv(s1)
  {
    hide StagingName, StagingSlot, NoSlot, SlotsMarked, FamiliarOnly, RemovalOk;
    PhasesKeep(s, s1);
  }

  lemma CoordinatesKeeps(s: System, s1: System, j: nat)
    requires Inv(s) && Coordinates(s, s1, j)
    ensures Inv(s1)
  {
    hide StagingName, StagingSlot, NoSlot, SlotsMarked, FamiliarOnly, RemovalOk;
    PhasesKeep(s, s1);
  }

  /** One lease fewer takes nothing from what a process relies on. */
  lemma PhaseUnleased(s: System, s1: System, p: Phase, n: string)
    requires PhaseOk(s, p) && s1.home == s.home && s1.stages == s.stages && s1.leases == s.leases - {n}
    ensures PhaseOk(s1, p)
  {
    hide StagingName, StagingSlot, NoSlot, RemovalOk;
  }

  lemma StageSame(s: System, s1: System, n: string)
    requires n in s.stages && StageOk(s, n) && s1.home == s.home && s1.stages == s.stages && s1.tampered == s.tampered
    ensures StageOk(s1, n)
  {
    hide StagingName, SlotsMarked, FamiliarOnly;
  }

  lemma OrphansLocks(s: System, s1: System, j: nat, n: string, slots: set<string>)
    requires LocksMatch(s) && Orphans(s, s1, j, n, slots)
    ensures LocksMatch(s1)
  {
  }

  lemma OrphansKeeps(s: System, s1: System, j: nat, n: string, slots: set<string>)
    requires Inv(s) && Orphans(s, s1, j, n, slots)
    ensures Inv(s1)
  {
    hide StagingName, StagingSlot, PhaseOk, StageOk, LocksMatch;
    OrphansLocks(s, s1, j, n, slots);
    forall k | k in s1.processes
      ensures PhaseOk(s1, s1.processes[k])
    {
      if k == j {
        EndedOk(s1);
      } else {
        PhaseUnleased(s, s1, s.processes[k], n);
      }
    }
    forall m | m in s1.stages
      ensures StageOk(s1, m)
    {
      StageSame(s, s1, m);
    }
  }

  lemma EndedOk(s: System)
    ensures PhaseOk(s, Ended)
  {
  }

  lemma EndKeeps(s: System, s1: System, j: nat, e: Event)
    requires Inv(s) && Next(s, s1, j, e) && (e.SyncHome? || e.Fail?)
    ensures Inv(s1)
  {
    hide Inv;
    if e.SyncHome? {
      SyncHomeKeeps(s);
      AfterKeeps(s.(home := Synced(s.home)), j, e.closing);
    } else {
      AfterKeeps(s, j, e.closing);
    }
  }

  // ---- whole runs ----

  ghost predicate Happens(s: System, s1: System) {
    exists j, e :: Next(s, s1, j, e)
  }

  const NO_STAGING := System(EMPTY_DIR, map[], None, map[], map[], {})

  /** A run from a home with no staging. */
  ghost predicate Run(tr: seq<System>) {
    tr != [] && tr[0] == NO_STAGING &&
    forall i | 0 <= i < |tr| - 1 :: Happens(tr[i], tr[i + 1])
  }

  lemma {:induction false} RunInv(tr: seq<System>, i: nat)
    requires Run(tr) && i < |tr|
    ensures Inv(tr[i])
  {
    hide Next;
    if i > 0 {
      RunInv(tr, i - 1);
      assert Happens(tr[i - 1], tr[i - 1 + 1]);
      var j, e :| Next(tr[i - 1], tr[i], j, e);
      hide Inv;
      NextKeeps(tr[i - 1], tr[i], j, e);
    }
  }

  // ---- the claims ----

  /** Live staging is never reaped: in every reachable state of any number of transfers and recoveries, with process and
      machine crashes, a stage whose transfer is between the return of staging and Close is in the home with its lease
      and every slot created in it and not renamed out. */
  lemma LiveIsKept(tr: seq<System>, i: nat, j: nat, n: string, slots: set<string>)
    requires Run(tr) && i < |tr| && Is(tr[i], j, Live(n, slots))
    ensures n in tr[i].home.now && n in tr[i].stages && slots <= tr[i].stages[n].now && LEASE in tr[i].stages[n].now
    ensures n in tr[i].leases && tr[i].leases[n] == j
  {
    hide Next, StagingName, StagingSlot;
    RunInv(tr, i);
    assert PhaseOk(tr[i], tr[i].processes[j]) && StageOk(tr[i], n);
  }

  /** Durable staging: after a machine crash at any moment, whatever was lost or undone, every stage that holds a slot
      holds its lease, and every stage that was live is still there with its lease. */
  lemma DurableLease(tr: seq<System>, i: nat, after: System)
    requires Run(tr) && i < |tr| && Crashes(tr[i], after)
    ensures forall n, e | n in after.stages && e in after.stages[n].now &&
            StagingSlot(e) :: LEASE in after.stages[n].now
    ensures forall j, n, slots | Is(tr[i], j, Live(n, slots)) ::
              n in after.home.now && n in after.stages && LEASE in after.stages[n].now
  {
    hide Next, StagingName, StagingSlot;
    RunInv(tr, i);
    forall n, e | n in after.stages && e in after.stages[n].now && StagingSlot(e)
      ensures LEASE in after.stages[n].now
    {
      assert StageOk(tr[i], n) && Survives(tr[i].stages[n], after.stages[n]);
    }
    forall j, n, slots | Is(tr[i], j, Live(n, slots))
      ensures n in after.home.now && n in after.stages && LEASE in after.stages[n].now
    {
      assert PhaseOk(tr[i], tr[i].processes[j]) && Survives(tr[i].stages[n], after.stages[n]);
    }
  }

  /** A stage nobody is working on any more. */
  predicate Abandoned(s: System, n: string) {
    n in s.home.now && n in s.stages && forall j | j in s.processes ::
      !Owning(s.processes[j], n) && !(s.processes[j].Removing? && s.processes[j].n == n)
  }

  /** Among the protocol's own names a slot never stands without the lease. */
  lemma FamiliarLayout(s: System, n: string)
    requires Inv(s) && n in s.stages && forall e | e in s.stages[n].now :: Familiar(e)
    ensures ValidLayout(s.stages[n].now)
  {
    hide StagingName, StagingSlot;
    assert StageOk(s, n);
    if e :| e in s.stages[n].now && e != LEASE {
      assert StagingSlot(e);
    }
  }

  /** A stage nothing foreign has touched always has a layout removeStaging accepts. */
  lemma UntamperedLayout(s: System, n: string)
    requires Inv(s) && n in s.stages && n !in s.tampered
    ensures ValidLayout(s.stages[n].now)
  {
    hide StagingName, StagingSlot;
    assert StageOk(s, n);
    assert forall e | e in s.stages[n].now :: e in s.stages[n].maybe && Familiar(e);
    FamiliarLayout(s, n);
  }

  /** Wherever its transfer or its removal died, an abandoned stage nothing foreign has touched has a name and a layout
      recovery accepts, and a lease nobody holds. */
  lemma AbandonedIsReapable(tr: seq<System>, i: nat, n: string)
    requires Run(tr) && i < |tr| && Abandoned(tr[i], n) && n !in tr[i].tampered
    ensures StagingName(n) && ValidLayout(tr[i].stages[n].now) && n !in tr[i].leases
  {
    hide Next, StagingName, StagingSlot, ValidLayout;
    RunInv(tr, i);
    assert StageOk(tr[i], n);
    UntamperedLayout(tr[i], n);
  }
}
