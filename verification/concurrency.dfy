// Any number of publishers at one home, their steps interleaved in every possible way:
// internal/session/publish.go under the writer locks of internal/session/locks.go.

module Concurrency {
  import opened Model
  import opened Format
  import opened Rollout
  import opened Inspect
  import opened Lineage
  import opened Conflicts
  import opened Steps
  import opened NonInterference
  import opened Schedule
  import opened Comparison
  import opened Planning
  import opened Publication
  import opened Retry
  import opened Convergence
  import opened Looks
  import opened Disks

  /** A publisher acquires its locks, then checks and stages under them, then applies the steps it planned. */
  datatype Phase = Locking | Applying

  /** `ids` are the thread and rollout ids of its plan, `held` the ones whose locks it has. */
  datatype Publisher = Publisher(thread: string, ids: set<string>, held: set<string>, phase: Phase, rest: seq<Step>)

  /** The shared world: live storage, rows, the lock table and whoever is publishing. */
  datatype System = System(tree: Tree, rows: Rows, locks: map<string, nat>, publishers: map<nat, Publisher>)

  // ---- the steps of the system ----

  ghost predicate Arrives(s: System, s1: System, j: nat, thread: string, ids: set<string>) {
    j !in s.publishers && thread in ids &&
    s1 == s.(publishers := s.publishers[j := Publisher(thread, ids, {}, Locking, [])])
  }

  /** One lock file is locked, if nobody holds it. */
  predicate Locks(s: System, s1: System, j: nat, id: string) {
    j in s.publishers && s.publishers[j].phase == Locking && id in s.publishers[j].ids && id !in s.locks &&
    s1 == s.(locks := s.locks[id := j],
             publishers := s.publishers[j := s.publishers[j].(held := s.publishers[j].held + {id})])
  }

  /** Holding every lock of its plan, the publisher checks the destination as it is now and plans its steps. */
  ghost predicate Plans(w: World, s: System, s1: System, j: nat, t: Target, inc: Incoming, stage: Stage) {
    j in s.publishers && s.publishers[j].phase == Locking && s.publishers[j].ids <= s.publishers[j].held &&
    t.w == w && t.tree == s.tree && Accepted(t, inc) && StageFor(w, inc, Check(t, inc).value, stage) &&
    IdsOfPlan(inc) <= s.publishers[j].ids && RowOf(s.rows, Main(inc).thread) == t.sel &&
      s.publishers[j].thread == inc.thread &&
    s1 == s.(publishers := s.publishers[j := s.publishers[j].(phase := Applying,
                                                              rest := StepsOf(w, inc, Check(t, inc).value, stage))])
  }

  /** The next planned step is made. */
  predicate Applies(s: System, s1: System, j: nat) {
    j in s.publishers && s.publishers[j].phase == Applying && s.publishers[j].rest != [] &&
    var p := s.publishers[j];
    s1 == s.(tree := ApplyStep(s.tree, p.rest[0]), publishers := s.publishers[j := p.(rest := p.rest[1..])])
  }

  /** A row that names a prerequisite is promoted. */
  predicate Promotes(s: System, s1: System, j: nat, row: Selection) {
    j in s.publishers && s.publishers[j].phase == Applying && s.publishers[j].rest == [] &&
    var thread := s.publishers[j].thread;
    thread in s.rows && PrerequisitePath(s.rows[thread].path) && s1 == s.(rows := s.rows[thread := row])
  }

  /** A publisher finishes, fails or dies at any point; its locks go with it. */
  ghost predicate Leaves(s: System, s1: System, j: nat) {
    j in s.publishers &&
    s1 == s.(locks := map id | id in s.locks && s.locks[id] != j :: s.locks[id], publishers := s.publishers - {j})
  }

  datatype Event =
    | Arrive(thread: string, ids: set<string>)
    | Lock(id: string)
    | Planning(t: Target, inc: Incoming, stage: Stage)
    | Applied
    | Promote(row: Selection)
    | Leave

  ghost predicate Next(w: World, s: System, s1: System, j: nat, e: Event) {
    match e
    case Arrive(thread, ids) => Arrives(s, s1, j, thread, ids)
    case Lock(id) => Locks(s, s1, j, id)
    case Planning(t, inc, stage) => Plans(w, s, s1, j, t, inc, stage)
    case Applied => Applies(s, s1, j)
    case Promote(row) => Promotes(s, s1, j, row)
    case Leave => Leaves(s, s1, j)
  }

  // ---- the invariant ----

  /** Held locks are recorded at both ends, so no lock has two holders. */
  ghost predicate LocksKept(s: System) {
    (forall id | id in s.locks :: s.locks[id] in s.publishers && id in s.publishers[s.locks[id]].held) &&
    (forall j, id | j in s.publishers && id in s.publishers[j].held :: id in s.locks && s.locks[id] == j) &&
    (forall j | j in s.publishers :: s.publishers[j].held <= s.publishers[j].ids &&
      s.publishers[j].thread in s.publishers[j].ids)
  }

  /** The steps still to be made concern the publisher's own threads and rollouts only, are safe now, and stay safe in
      their order. */
  ghost predicate RestInOrder(w: World, s: System, p: Publisher) {
    p.ids <= p.held && AllSafe(w, s.tree, s.rows, p.rest) && InOrder(w, p.rest) &&
    forall i | 0 <= i < |p.rest| :: Own(p, p.rest[i])
  }

  predicate Own(p: Publisher, step: Step) {
    Listed(step.path) && IdsOf(step.path).rollout in p.ids && IdsOf(step.path).thread in p.ids
  }

  ghost predicate Inv(w: World, s: System) {
    LocksKept(s) &&
    forall j | j in s.publishers && s.publishers[j].phase == Applying :: RestInOrder(w, s, s.publishers[j])
  }

  lemma OneHolder(s: System, j: nat, k: nat, id: string)
    requires LocksKept(s) && j in s.publishers && k in s.publishers && j != k && id in s.publishers[j].held
    ensures id !in s.publishers[k].held
  {
    assert s.locks[id] == j;
  }

  /** Writer exclusion: two publishers that are applying have no thread or rollout in common. */
  lemma Exclusion(w: World, s: System, j: nat, k: nat)
    requires Inv(w, s) && j in s.publishers && k in s.publishers && j != k
    requires s.publishers[j].phase == Applying && s.publishers[k].phase == Applying
    ensures s.publishers[j].ids !! s.publishers[k].ids
    ensures forall id | id in s.publishers[j].ids :: id in s.locks && s.locks[id] == j
  {
    hide AllSafe, InOrder, Own;
    assert RestInOrder(w, s, s.publishers[j]) && RestInOrder(w, s, s.publishers[k]);
    forall id | id in s.publishers[j].ids
      ensures id !in s.publishers[k].ids
    {
      OneHolder(s, j, k, id);
    }
  }

  // ---- every step keeps it ----

  /** Steps of publishers with nothing in common do not disturb each other. */
  lemma Apart(w: World, p: Publisher, q: Publisher, a: Step, b: Step)
    requires p.ids !! q.ids && Own(p, a) && Own(q, b)
    ensures Compatible(w, a, b)
  {
    hide Listed, IdsOf, PrerequisitePath, Visible;
  }

  lemma OwnStepKept(w: World, s: System, j: nat)
    requires Inv(w, s) && j in s.publishers && s.publishers[j].phase == Applying && s.publishers[j].rest != []
    ensures var p := s.publishers[j];
            Safe(w, s.tree, s.rows, p.rest[0]) && AllSafe(w, ApplyStep(s.tree, p.rest[0]), s.rows, p.rest[1..]) &&
            InOrder(w, p.rest[1..]) && forall i | 0 <= i < |p.rest[1..]| :: Own(p, p.rest[1..][i])
  {
    hide Safe, Compatible, Own, LocksKept;
    var p := s.publishers[j];
    assert RestInOrder(w, s, p);
    forall i | 0 <= i < |p.rest[1..]|
      ensures Safe(w, ApplyStep(s.tree, p.rest[0]), s.rows, p.rest[1..][i]) && Own(p, p.rest[1..][i])
    {
      assert p.rest[1..][i] == p.rest[i + 1];
      assert Compatible(w, p.rest[0], p.rest[i + 1]);
      StaysSafe(w, s.tree, s.rows, p.rest[0], p.rest[i + 1]);
    }
    forall a, b | 0 <= a < b < |p.rest[1..]|
      ensures Compatible(w, p.rest[1..][a], p.rest[1..][b])
    {
      assert Compatible(w, p.rest[a + 1], p.rest[b + 1]);
    }
  }

  lemma OthersKept(w: World, s: System, j: nat, k: nat)
    requires Inv(w, s) && j in s.publishers && k in s.publishers && j != k
    requires s.publishers[j].phase == Applying && s.publishers[k].phase == Applying && s.publishers[j].rest != []
    ensures AllSafe(w, ApplyStep(s.tree, s.publishers[j].rest[0]), s.rows, s.publishers[k].rest)
  {
    hide Safe, Compatible, Own, LocksKept;
    Exclusion(w, s, j, k);
    var p, q := s.publishers[j], s.publishers[k];
    assert RestInOrder(w, s, p) && RestInOrder(w, s, q);
    forall i | 0 <= i < |q.rest|
      ensures Safe(w, ApplyStep(s.tree, p.rest[0]), s.rows, q.rest[i])
    {
      assert Own(p, p.rest[0]) && Own(q, q.rest[i]);
      Apart(w, p, q, p.rest[0], q.rest[i]);
      StaysSafe(w, s.tree, s.rows, p.rest[0], q.rest[i]);
    }
  }

  lemma AppliesKeeps(w: World, s: System, s1: System, j: nat)
    requires Inv(w, s) && Applies(s, s1, j)
    ensures Inv(w, s1)
  {
    hide AllSafe, InOrder, Own;
    forall k | k in s1.publishers && s1.publishers[k].phase == Applying
      ensures RestInOrder(w, s1, s1.publishers[k])
    {
      if k == j {
        OwnStepKept(w, s, j);
        OwnStill(s.publishers[j], s1.publishers[j]);
      } else {
        OthersKept(w, s, j, k);
        assert RestInOrder(w, s, s.publishers[k]);
      }
    }
  }

  lemma OwnStill(p: Publisher, q: Publisher)
    requires q.ids == p.ids && forall i | 0 <= i < |q.rest| :: Own(p, q.rest[i])
    ensures forall i | 0 <= i < |q.rest| :: Own(q, q.rest[i])
  {
    hide Listed, IdsOf;
  }

  /** A step's safety looks at the row of its own thread only. */
  lemma RowsApart(w: World, tree: Tree, rows: Rows, thread: string, row: Selection, step: Step)
    requires Safe(w, tree, rows, step) && Listed(step.path) && IdsOf(step.path).thread != thread
    ensures Safe(w, tree, rows[thread := row], step)
  {
    hide ParseName, ManagedPath, PrerequisitePath, Visible, Grows;
  }

  lemma PromotesKeeps(w: World, s: System, s1: System, j: nat, row: Selection)
    requires Inv(w, s) && Promotes(s, s1, j, row)
    ensures Inv(w, s1)
  {
    hide Safe, InOrder, PrerequisitePath, Listed, IdsOf;
    forall k | k in s1.publishers && s1.publishers[k].phase == Applying
      ensures RestInOrder(w, s1, s1.publishers[k])
    {
      assert RestInOrder(w, s, s.publishers[k]);
      if k != j {
        Exclusion(w, s, j, k);
        var q := s.publishers[k];
        forall i | 0 <= i < |q.rest|
          ensures Safe(w, s1.tree, s1.rows, q.rest[i])
        {
          assert Own(q, q.rest[i]);
          RowsApart(w, s.tree, s.rows, s.publishers[j].thread, row, q.rest[i]);
        }
      }
    }
  }

  /** The steps of an accepted publication concern the ids of its plan only. */
  lemma {:induction false} PlanOwn(t: Target, inc: Incoming, stage: Stage, p: Publisher)
    requires Accepted(t, inc) && StageFor(t.w, inc, Check(t, inc).value, stage) && IdsOfPlan(inc) <= p.ids
    requires p.rest == StepsOf(t.w, inc, Check(t, inc).value, stage)
    ensures forall i | 0 <= i < |p.rest| :: Own(p, p.rest[i])
  {
    hide Accepted, Check, StageFor, StepsUpTo, StepsOf, Planned, Compatible, AdmitSelection;
    Convergence.AcceptedShape(t, inc);
    AllSteps(t.w, inc, Check(t, inc).value, stage);
    StepsUpToInOrder(t, inc, stage, |inc.files|);
    forall i | 0 <= i < |p.rest|
      ensures Own(p, p.rest[i])
    {
      assert p.rest[i] in p.rest;
      var f :| 0 <= f < |inc.files| && Planned(t, inc, f, p.rest[i]);
      PlannedOwn(t, inc, f, p, p.rest[i]);
    }
  }

  lemma PlannedOwn(t: Target, inc: Incoming, i: nat, p: Publisher, step: Step)
    requires i < |inc.files| == |inc.payload| && AdmitSelection(t, inc).Ok? && Planned(t, inc, i, step)
    requires IdsOfPlan(inc) <= p.ids
    ensures Own(p, step)
  {
    hide AdmitSelection, Listed, IdsOf, Visible, Encode, MustGrow, Present;
    assert inc.files[i] in inc.files;
  }

  lemma PlansKeeps(w: World, s: System, s1: System, j: nat, t: Target, inc: Incoming, stage: Stage)
    requires Inv(w, s) && Plans(w, s, s1, j, t, inc, stage)
    ensures Inv(w, s1)
  {
    hide Accepted, Check, StageFor, StepsOf, AllSafe, InOrder, Own, Compatible, IdsOfPlan;
    PublicationIsSafe(t, inc, stage, s.rows, 0);
    PlanOwn(t, inc, stage, s1.publishers[j]);
    forall k | k in s1.publishers && s1.publishers[k].phase == Applying
      ensures RestInOrder(w, s1, s1.publishers[k])
    {
      if k != j {
        assert RestInOrder(w, s, s.publishers[k]);
      }
    }
  }

  lemma QuietKeeps(w: World, s: System, s1: System)
    requires Inv(w, s) && LocksKept(s1) && s1.tree == s.tree && s1.rows == s.rows
    requires forall k | k in s1.publishers && s1.publishers[k].phase == Applying ::
               k in s.publishers && s.publishers[k] == s1.publishers[k]
    ensures Inv(w, s1)
  {
    hide AllSafe, InOrder, Own, LocksKept;
    forall k | k in s1.publishers && s1.publishers[k].phase == Applying
      ensures RestInOrder(w, s1, s1.publishers[k])
    {
      assert RestInOrder(w, s, s.publishers[k]);
    }
  }

  lemma ArrivesKeeps(w: World, s: System, s1: System, j: nat, thread: string, ids: set<string>)
    requires Inv(w, s) && Arrives(s, s1, j, thread, ids)
    ensures Inv(w, s1)
  {
    hide RestInOrder;
    QuietKeeps(w, s, s1);
  }

  lemma LocksKeeps(w: World, s: System, s1: System, j: nat, id: string)
    requires Inv(w, s) && Locks(s, s1, j, id)
    ensures Inv(w, s1)
  {
    hide RestInOrder, LocksKept;
    LockRecorded(s, s1, j, id);
    QuietKeeps(w, s, s1);
  }

  lemma LockRecorded(s: System, s1: System, j: nat, id: string)
    requires LocksKept(s) && Locks(s, s1, j, id)
    ensures LocksKept(s1)
  {
  }

  lemma LeavesKeeps(w: World, s: System, s1: System, j: nat)
    requires Inv(w, s) && Leaves(s, s1, j)
    ensures Inv(w, s1)
  {
    hide RestInOrder;
    QuietKeeps(w, s, s1);
  }

  /** Whatever happens next, the invariant holds again. */
  lemma NextKeeps(w: World, s: System, s1: System, j: nat, e: Event)
    requires Inv(w, s) && Next(w, s, s1, j, e)
    ensures Inv(w, s1)
  {
    hide RestInOrder, Plans, Applies, Promotes, Inv, Arrives, Locks, Leaves;
    match e
    case Arrive(thread, ids) => ArrivesKeeps(w, s, s1, j, thread, ids);
    case Lock(id) => LocksKeeps(w, s, s1, j, id);
    case Planning(t, inc, stage) => PlansKeeps(w, s, s1, j, t, inc, stage);
    case Applied => AppliesKeeps(w, s, s1, j);
    case Promote(row) => PromotesKeeps(w, s, s1, j, row);
    case Leave => LeavesKeeps(w, s, s1, j);
  }

  // ---- whole runs ----

  /** A run of the system from a home nobody is publishing to. */
  ghost predicate Run(w: World, tr: seq<System>) {
    tr != [] && tr[0].locks == map[] && tr[0].publishers == map[] &&
    forall i | 0 <= i < |tr| - 1 :: Happens(w, tr[i], tr[i + 1])
  }

  ghost predicate Happens(w: World, s: System, s1: System) {
    exists j, e :: Next(w, s, s1, j, e)
  }

  lemma {:induction false} RunInv(w: World, tr: seq<System>, n: nat)
    requires Run(w, tr) && n < |tr|
    ensures Inv(w, tr[n])
  {
    hide Next, RestInOrder;
    if n > 0 {
      RunInv(w, tr, n - 1);
      assert Happens(w, tr[n - 1], tr[n - 1 + 1]);
      var j, e :| Next(w, tr[n - 1], tr[n], j, e);
      NextKeeps(w, tr[n - 1], tr[n], j, e);
    }
  }

  /** Safety over whole concurrent runs: in every reachable state no lock has two holders, every publisher that is
      past its check holds the lock of each thread and rollout of its plan, and no other publisher past its check
      has any of them in its plan. */
  lemma WriterExclusion(w: World, tr: seq<System>, n: nat, j: nat, k: nat)
    requires Run(w, tr) && n < |tr| && j in tr[n].publishers && k in tr[n].publishers && j != k
    requires tr[n].publishers[j].phase == Applying && tr[n].publishers[k].phase == Applying
    ensures tr[n].publishers[j].ids !! tr[n].publishers[k].ids
    ensures forall id | id in tr[n].publishers[j].ids :: id in tr[n].locks && tr[n].locks[id] == j
    ensures tr[n].publishers[j].held !! tr[n].publishers[k].held
  {
    hide Run, RestInOrder;
    RunInv(w, tr, n);
    Exclusion(w, tr[n], j, k);
  }

  /** One event, as a step of storage or none. */
  lemma EventAround(w: World, s: System, s1: System, j: nat, e: Event) returns (step: Option<Step>)
    requires Inv(w, s) && Next(w, s, s1, j, e)
    ensures s1.tree == (if step.Some? then ApplyStep(s.tree, step.value) else s.tree)
    ensures step.Some? ==> Safe(w, s.tree, s.rows, step.value) && s1.rows == s.rows
    ensures forall thread | !(thread in s.rows &&
            PrerequisitePath(s.rows[thread].path)) :: RowOf(s1.rows, thread) == RowOf(s.rows, thread)
  {
    hide RestInOrder, LocksKept, Accepted, Safe, PrerequisitePath, Check, StageFor;
    if e.Applied? {
      OwnStepKept(w, s, j);
      step := Some(s.publishers[j].rest[0]);
    } else {
      step := None;
    }
  }

  // ---- a check takes time ----

  /** The publisher has every lock of its plan and has not planned its steps yet. */
  predicate Checking(s: System, j: nat, ids: set<string>) {
    j in s.publishers && s.publishers[j].phase == Locking && s.publishers[j].ids == ids && ids <= s.publishers[j].held
  }

  /** Whatever the others do meanwhile, they do not touch a file or a row with the checking publisher's ids. */
  lemma Undisturbed(w: World, s: System, s1: System, k: nat, e: Event, j: nat, ids: set<string>)
    requires Inv(w, s) && Next(w, s, s1, k, e) && Checking(s, j, ids) && Checking(s1, j, ids)
    ensures forall p | !ForeignPath(ids, p) :: Version(s1.tree, p) == Version(s.tree, p)
    ensures forall id | id in ids :: RowOf(s1.rows, id) == RowOf(s.rows, id)
  {
    hide AllSafe, InOrder, Listed, IdsOf, Accepted, Check, StageFor, PrerequisitePath;
    if e.Applied? || e.Promote? {
      var p := s.publishers[k];
      assert RestInOrder(w, s, p);
      forall id | id in p.ids
        ensures id !in ids
      {
        OneHolder(s, k, j, id);
      }
      if e.Applied? {
        assert Own(p, p.rest[0]);
      }
    }
  }

  lemma {:induction false} UndisturbedSince(w: World, tr: seq<System>, m: nat, n: nat, j: nat, ids: set<string>)
    requires Run(w, tr) && m <= n < |tr| && forall i | m <= i <= n :: Checking(tr[i], j, ids)
    ensures forall p | !ForeignPath(ids, p) :: Version(tr[n].tree, p) == Version(tr[m].tree, p)
    ensures forall id | id in ids :: RowOf(tr[n].rows, id) == RowOf(tr[m].rows, id)
  {
    hide Next, Inv, Checking, ForeignPath, Version, RowOf;
    if m < n {
      UndisturbedSince(w, tr, m, n - 1, j, ids);
      RunInv(w, tr, n - 1);
      assert Happens(w, tr[n - 1], tr[n - 1 + 1]);
      var k, e :| Next(w, tr[n - 1], tr[n], k, e);
      Undisturbed(w, tr[n - 1], tr[n], k, e, j, ids);
    }
  }

  /** What a check that lasted from one moment to another may have looked at: each file as it was at some moment
      between, each file of the walk there at some moment, none missed that was there all the time, and the row of some
      moment. */
  ghost predicate Looked(w: World, tr: seq<System>, m: nat, n: nat, thread: string, t: Target)
    requires m <= n < |tr|
  {
    t.w == w && Walked(t.inv) && NoRepeat(t.inv) && (exists i :: m <= i <= n && t.sel == RowOf(tr[i].rows, thread)) &&
    (forall p :: exists i :: m <= i <= n && Version(t.tree, p) == Version(tr[i].tree, p)) &&
    (forall c | c in t.inv :: exists i :: m <= i <= n && c.path in tr[i].tree) &&
    forall p | Listed(p) && forall i | m <= i <= n :: p in tr[i].tree :: IdsOf(p) in t.inv
  }

  /** Of the publisher's own files such a look shows the one version there was. */
  lemma LookedOwn(w: World, tr: seq<System>, m: nat, n: nat, i: nat, j: nat, ids: set<string>, thread: string,
                  t: Target)
    requires Run(w, tr) && m <= i <= n < |tr| && Looked(w, tr, m, n, thread, t) && thread in ids
    requires forall k | m <= k <= n :: Checking(tr[k], j, ids)
    ensures forall p | !ForeignPath(ids, p) :: Version(t.tree, p) == Version(tr[i].tree, p)
    ensures t.sel == RowOf(tr[i].rows, thread)
    ensures forall c | c in t.inv && !Foreign(ids, c) :: c.path in tr[i].tree
    ensures forall p | p in tr[i].tree && Listed(p) && !ForeignPath(ids, p) :: IdsOf(p) in t.inv
  {
    hide Run, Checking, RowOf, Listed, IdsOf, ForeignPath;
    forall k | m <= k <= n
      ensures forall p | !ForeignPath(ids, p) :: Version(tr[k].tree, p) == Version(tr[i].tree, p)
      ensures RowOf(tr[k].rows, thread) == RowOf(tr[i].rows, thread)
    {
      UndisturbedSince(w, tr, m, k, j, ids);
      UndisturbedSince(w, tr, m, i, j, ids);
    }
    forall c | c in t.inv && !Foreign(ids, c)
      ensures c.path in tr[i].tree
    {
      var k :| m <= k <= n && c.path in tr[k].tree;
      OwnCandidate(ids, t.inv, c);
      assert Version(tr[k].tree, c.path) == Version(tr[i].tree, c.path);
    }
    forall p | p in tr[i].tree && Listed(p) && !ForeignPath(ids, p)
      ensures IdsOf(p) in t.inv
    {
      assert forall k | m <= k <= n :: Version(tr[k].tree, p) == Version(tr[i].tree, p);
    }
  }

  lemma OwnCandidate(ids: set<string>, inv: seq<Candidate>, c: Candidate)
    requires Walked(inv) && c in inv && !Foreign(ids, c)
    ensures !ForeignPath(ids, c.path)
  {
    hide ManagedPath, ParseName;
  }

  /** A check that reads the destination file by file while other publishers go on answers what it would answer at any
      one moment of that time, so that planning may be taken for one event. */
  lemma CheckIsAtomic(w: World, tr: seq<System>, m: nat, n: nat, i: nat, j: nat, ids: set<string>, t: Target,
                      inc: Incoming) returns (t1: Target)
    requires Run(w, tr) && m <= i <= n < |tr| && 1 <= |inc.files| == |inc.payload| && IdsOfPlan(inc) <= ids
    requires (forall k | m <= k <= n :: Checking(tr[k], j, ids)) && Looked(w, tr, m, n, Main(inc).thread, t)
    ensures t1.w == w && t1.limits == t.limits && t1.tree == tr[i].tree && InventoryOf(t1.tree, t1.inv)
    ensures t1.sel == RowOf(tr[i].rows, Main(inc).thread) && Check(t1, inc) == Check(t, inc)
  {
    hide Run, Checking, RowOf, Check, Version, OwnPart, ForeignPath, Foreign, Walked, NoRepeat;
    assert Main(inc) in inc.files;
    LookedOwn(w, tr, m, n, i, j, ids, Main(inc).thread, t);
    var inv := Merged(tr[i].tree, ids, t.inv);
    t1 := Target(w, t.limits, tr[i].tree, inv, t.sel);
    InventoryWalked(t1.tree, inv);
    CheckLocal(ids, t1, t, inc);
  }

  lemma InventoryWalked(tree: Tree, inv: seq<Candidate>)
    requires InventoryOf(tree, inv)
    ensures Walked(inv)
  {
    hide ManagedPath, ParseName;
  }

  // ---- what every run keeps ----

  /** A thread that resolves has no row, or one that names a conversation. */
  lemma ResolvedRow(env: Env, rows: Rows, thread: string)
    requires ParseID(thread).Some? && Finds(env, rows, thread).Ok?
    ensures var id := ParseID(thread).value; !(id in rows && PrerequisitePath(rows[id].path))
  {
    hide Walk, CheckMain, Conversations, ValidRelative, ManagedPath, PrerequisitePath, HasSuffix, Forms;
  }

  /** Non-interference over whole concurrent runs: at every moment of every interleaving, with publishers arriving,
      failing and dying at any point, each thread that resolved at the start resolves to the same rollouts, sizes and
      digests. */
  lemma {:induction false} ConcurrentNonInterference(w: World, tr: seq<System>, n: nat, e0: Env, e1: Env,
                                                     thread: string)
    requires Run(w, tr) && n < |tr| && CollisionFree(w) && e0.w == w == e1.w && e0.limits.Valid()
    requires e1.limits == e0.limits && e1.snapshot == e0.snapshot && e0.tree == tr[0].tree && e1.tree == tr[n].tree
    requires InventoryOf(e0.tree, e0.inv) && InventoryOf(e1.tree, e1.inv)
    requires ParseID(thread).Some? && Finds(e0, tr[0].rows, thread).Ok?
    ensures Finds(e1, tr[n].rows, thread).Ok?
    ensures SameLineage(Finds(e0, tr[0].rows, thread).value.files, Finds(e1, tr[n].rows, thread).value.files)
    decreases n
  {
    hide Next, Inv, Finds, SameLineage, CollisionFree, Safe, InventoryOf;
    if n == 0 {
      OneStep(w, tr[0].rows, None, e0, e1, thread);
    } else {
      var inv := InventoryExists(tr[n - 1].tree);
      var e := Env(w, tr[n - 1].tree, inv, e0.limits, e0.snapshot);
      ConcurrentNonInterference(w, tr, n - 1, e0, e, thread);
      assert Happens(w, tr[n - 1], tr[n - 1 + 1]);
      var j, event :| Next(w, tr[n - 1], tr[n], j, event);
      RunInv(w, tr, n - 1);
      var step := EventAround(w, tr[n - 1], tr[n], j, event);
      ResolvedRow(e, tr[n - 1].rows, thread);
      OneStep(w, tr[n - 1].rows, step, e, e1, thread);
      SameRowFinds(e1, tr[n - 1].rows, tr[n].rows, thread);
      SameLineageTransitive(Finds(e0, tr[0].rows, thread).value.files, Finds(e, tr[n - 1].rows, thread).value.files,
                            Finds(e1, tr[n].rows, thread).value.files);
    }
  }

  lemma SameRowFinds(env: Env, rows: Rows, rows1: Rows, thread: string)
    requires ParseID(thread).Some? && RowOf(rows1, ParseID(thread).value) == RowOf(rows, ParseID(thread).value)
    ensures Finds(env, rows1, thread) == Finds(env, rows, thread)
  {
    hide Resolve;
  }

  /** Append-only storage over whole concurrent runs. */
  lemma {:induction false} ConcurrentAppends(w: World, tr: seq<System>, n: nat)
    requires Run(w, tr) && n < |tr|
    ensures AppendOnly(w, tr[0].tree, tr[n].tree)
  {
    hide Next, Inv, AppendOnly, Safe;
    if n == 0 {
      NothingAppends(w, tr[0].tree);
    } else {
      ConcurrentAppends(w, tr, n - 1);
      assert Happens(w, tr[n - 1], tr[n - 1 + 1]);
      var j, event :| Next(w, tr[n - 1], tr[n], j, event);
      RunInv(w, tr, n - 1);
      var step := EventAround(w, tr[n - 1], tr[n], j, event);
      if step.Some? {
        StepAppends(w, tr[n - 1].tree, tr[n - 1].rows, step.value);
      } else {
        NothingAppends(w, tr[n - 1].tree);
      }
      AppendsCompose(w, tr[0].tree, tr[n - 1].tree, tr[n].tree);
    }
  }
}
