// Machine crashes of live storage: directories lose links and renames that were not synced.
// publish of internal/session/publish.go with publishPrefix of extend.go.

module Durability {
  import opened Model
  import opened Format
  import opened Rollout
  import opened Inspect
  import opened Lineage
  import opened Conflicts
  import opened Steps
  import opened Comparison
  import opened Planning
  import opened Schedule
  import opened Publication
  import opened Retry
  import opened Convergence
  import opened EndToEnd
  import opened Closure
  import opened Disks
  import opened Crashes

  // ---- one attempt on a settled disk ----

  /** Every rename of these steps finds its directory. */
  predicate RenamesThere(steps: seq<Step>, dirs: set<string>) {
    forall s | s in steps && s.Extend? :: forall dir | dir in Way(s.path) :: dir in dirs
  }

  lemma {:induction false} DoneSynced(d: Disk, ops: seq<Op>)
    requires d == AllSynced(d.now, d.dirs)
    ensures DoneAll(d, ops) == AllSynced(Apply(d.now, PutsIn(ops)), DoneAll(d, ops).dirs)
  {
    DoneAllIs(d, ops);
  }

  /** All files lie in directories that are there. */
  lemma {:induction false} StaysRooted(tree: Tree, dirs: set<string>, steps: seq<Step>, p: string)
    requires Rooted(tree, dirs) && RenamesThere(steps, dirs) && p in Apply(tree, steps)
    ensures forall dir | dir in Way(p) :: dir in dirs || exists s | s in steps :: s.Install? && dir in Way(s.path)
  {
    hide Way;
    if steps != [] {
      var init, last := steps[..|steps| - 1], steps[|steps| - 1];
      assert steps == init + [last];
      if p != last.path {
        StaysRooted(tree, dirs, init, p);
      } else {
        assert last in steps;
      }
    }
  }

  /** The directories of the steps made so far have been made before them. */
  lemma {:induction false} WaysMade(steps: seq<Step>, k: nat, s: Step, dir: string)
    requires k <= |OpsFor(steps)| && Put(s) in OpsFor(steps)[..k] && s.Install? && dir in Way(s.path)
    ensures Mkdir(dir) in OpsFor(steps)[..k]
  {
    hide Way;
    if steps != [] {
      var n := |steps| - 1;
      var before, own := OpsFor(steps[..n]), OpsOf(steps[n]);
      var ops := OpsFor(steps)[..k];
      if k <= |before| {
        assert ops == before[..k];
        WaysMade(steps[..n], k, s, dir);
      } else {
        assert before[..|before|] == before;
        assert ops == before + own[..k - |before|];
        if Put(s) in before {
          WaysMade(steps[..n], |before|, s, dir);
        } else {
          OwnWay(steps[n], k - |before|, s, dir);
        }
      }
    }
  }

  lemma OwnWay(last: Step, k: nat, s: Step, dir: string)
    requires k <= |OpsOf(last)| && Put(s) in OpsOf(last)[..k] && s.Install? && dir in Way(s.path)
    ensures Mkdir(dir) in OpsOf(last)[..k]
  {
    hide Way;
    var own := OpsOf(last);
    var i :| 0 <= i < k && own[i] == Put(s);
    assert i == |own| - 1 && s == last;
    var j :| 0 <= j < |Way(s.path)| && Way(s.path)[j] == dir;
    assert own[..k][j] == Mkdir(dir);
  }

  /** Nothing lies in a directory that an attempt has not come to yet. */
  lemma NothingBelow(tree: Tree, dirs: set<string>, steps: seq<Step>, k: nat, dir: string, p: string)
    requires Rooted(tree, dirs) && RenamesThere(steps, dirs) && k <= |OpsFor(steps)|
    requires dir !in dirs && Mkdir(dir) !in OpsFor(steps)[..k] && p in Apply(tree, PutsIn(OpsFor(steps)[..k]))
    ensures dir !in Way(p)
  {
    hide Way, OpsFor, Apply;
    var ops := OpsFor(steps)[..k];
    var m := StepsMade(steps, k);
    StaysRooted(tree, dirs, steps[..m], p);
    if dir in Way(p) {
      var s :| s in steps[..m] && s.Install? && dir in Way(s.path);
      PutIn(ops, s);
      WaysMade(steps, k, s, dir);
    }
  }

  /** Whatever a machine crash loses of an attempt on a settled disk, it leaves the destination as a process that
      stopped after some number of steps leaves it. */
  lemma AttemptLeaves(tree: Tree, dirs: set<string>, steps: seq<Step>, k: nat, synced: bool, after: Tree)
    returns (m: nat)
    requires Rooted(tree, dirs) && RenamesThere(steps, dirs) && k <= |OpsFor(steps)|
    requires MayLeave(Attempted(AllSynced(tree, dirs), OpsFor(steps)[..k], synced), after)
    ensures m <= |steps| && after == Apply(tree, steps[..m])
  {
    hide Way, OpsFor, Apply, DoneAll, Leaves;
    var d0, ops := AllSynced(tree, dirs), OpsFor(steps)[..k];
    var d := Attempted(d0, ops, synced);
    var lost :| Leaves(d, lost, after);
    m := StepsMade(steps, k);
    DoneSynced(d0, ops);
    if synced || k == 0 {
      WholeAttempt(d0, ops, synced);
      StableLeft(d, lost, after);
    } else {
      var init, last := OpsFor(steps)[..k - 1], OpsFor(steps)[k - 1];
      assert ops[..k - 1] == init && ops == init + [last];
      DoneSynced(d0, init);
      DoneAllIs(d0, init);
      var before := DoneAll(d0, init);
      if last.Put? {
        var here := StepsMade(steps, k - 1);
        LastMade(tree, init, last.step);
        PutLeaves(before, last.step, lost, after);
        m := if after == before.now then here else m;
      } else {
        LastMkdir(tree, init, last);
        forall p | p in before.now && last.dir !in before.dirs
          ensures last.dir !in Way(p)
        {
          NothingBelow(tree, dirs, steps, k - 1, last.dir, p);
        }
        MkdirLeaves(before, last.dir, lost, after);
      }
    }
  }

  lemma LastMade(tree: Tree, init: seq<Op>, s: Step)
    ensures Apply(tree, PutsIn(init + [Put(s)])) == ApplyStep(Apply(tree, PutsIn(init)), s)
  {
    assert (init + [Put(s)])[..|init|] == init;
    ApplyMore(tree, PutsIn(init), s);
  }

  lemma LastMkdir(tree: Tree, init: seq<Op>, op: Op)
    requires op.Mkdir?
    ensures Apply(tree, PutsIn(init + [op])) == Apply(tree, PutsIn(init))
  {
    hide Apply;
    assert (init + [op])[..|init|] == init;
    assert PutsIn(init) + [] == PutsIn(init);
  }

  /** One unsynced link or rename is there after a crash or not. */
  lemma PutLeaves(d: Disk, s: Step, lost: set<string>, after: Tree)
    requires d == AllSynced(d.now, d.dirs) && Leaves(Do(d, Put(s)), lost, after)
    ensures after == d.now || after == ApplyStep(d.now, s)
  {
    hide Way;
    var d1 := Do(d, Put(s));
    var same := Version(after, s.path) == Version(d1.now, s.path);
    forall p
      ensures Version(after, p) == Version(if same then d1.now else d.now, p)
    {
      assert VersionLeft(d1, p, Version(after, p));
    }
    SameVersions(after, if same then d1.now else d.now);
  }

  /** One unsynced directory has nothing in it yet. */
  lemma MkdirLeaves(d: Disk, dir: string, lost: set<string>, after: Tree)
    requires d == AllSynced(d.now, d.dirs) && Leaves(Do(d, Mkdir(dir)), lost, after)
    requires dir !in d.dirs ==> forall p | p in d.now :: dir !in Way(p)
    ensures after == d.now
  {
    hide Way;
    var d1 := Do(d, Mkdir(dir));
    forall p
      ensures Version(after, p) == Version(d.now, p)
    {
      if LiesIn(p, lost) {
        assert p !in d.now;
      } else {
        assert VersionLeft(d1, p, Version(after, p));
      }
    }
    SameVersions(after, d.now);
  }

  lemma WholeAttempt(d: Disk, ops: seq<Op>, synced: bool)
    ensures synced || ops == [] ==> Attempted(d, ops, synced) == DoneAll(d, ops)
  {
  }

  lemma StableLeft(d: Disk, lost: set<string>, after: Tree)
    requires d == AllSynced(d.now, d.dirs) && Leaves(d, lost, after)
    ensures after == d.now
  {
    hide Way;
    SameVersions(after, d.now);
  }

  lemma AcceptedRenames(t: Target, inc: Incoming, stage: Stage, dirs: set<string>)
    requires Accepted(t, inc) && StageFor(t.w, inc, Check(t, inc).value, stage) && Rooted(t.tree, dirs)
    ensures RenamesThere(StepsOf(t.w, inc, Check(t, inc).value, stage), dirs)
  {
    hide AdmitSelection, Accepted, Check, StageFor, StepsUpTo, Compatible, Way, Above, MustGrow, Present, Encode,
         Listed;
    AcceptedFacts(t, inc);
    StepsUpToInOrder(t, inc, stage, |inc.files|);
    forall s | s in StepsOf(t.w, inc, Check(t, inc).value, stage) && s.Extend?
      ensures forall dir | dir in Way(s.path) :: dir in dirs
    {
      var i :| 0 <= i < |inc.files| && Planned(t, inc, i, s);
      assert s.path in t.tree;
    }
  }

  /** Crash closure over machine crashes: stop a first attempt after any system call, its directory synced or not, and
      lose what can be lost, directories included; whatever file has been installed or has grown and survives, every
      rollout it inherits from survives at its exact cutoff. */
  lemma MachineCrashClosure(t: Target, inc: Incoming, stage: Stage, dirs: set<string>, k: nat, synced: bool, t1: Target,
                            p: string)
    requires Accepted(t, inc) && StageFor(t.w, inc, Check(t, inc).value, stage) && Rooted(t.tree, dirs)
    requires k <= |OpsFor(StepsOf(t.w, inc, Check(t, inc).value, stage))|
    requires var ops := OpsFor(StepsOf(t.w, inc, Check(t, inc).value, stage));
             MayLeave(Attempted(AllSynced(t.tree, dirs), ops[..k], synced), t1.tree)
    requires InventoryOf(t1.tree, t1.inv) && Again(t, t1)
    requires p in t1.tree && (p !in t.tree || t1.tree[p] != t.tree[p])
    ensures IndexOf(inc, p).Some?
    ensures forall j | 0 <= j < IndexOf(inc, p).value :: Reachable(t1, inc, j)
  {
    hide Accepted, Check, StageFor, StepsOf, OpsFor, InventoryOf, Reachable, IndexOf, Attempted, Apply, MayLeave, Dealt;
    hide Rooted, RenamesThere;
    AcceptedFacts(t, inc);
    AcceptedRenames(t, inc, stage, dirs);
    var steps := StepsOf(t.w, inc, Check(t, inc).value, stage);
    var m := AttemptLeaves(t.tree, dirs, steps, k, synced, t1.tree);
    CrashClosure(t, inc, stage, m, t1, p);
  }

  // ---- any number of attempts and crashes ----

  /** The path is as it was before the first attempt, or holds the incoming bytes. */
  ghost predicate VersionOk(t: Target, inc: Incoming, p: string, v: Option<Node>)
    requires |inc.files| == |inc.payload| && AdmitSelectionOk(t, inc)
  {
    v == Version(t.tree, p) || (v.Some? && Dealt(t, inc, p, v.value))
  }

  /** Every version on the disk is such a one, and the directories of the first check cannot be lost. */
  ghost predicate DiskOk(t: Target, inc: Incoming, dirs: set<string>, d: Disk)
    requires |inc.files| == |inc.payload| && AdmitSelectionOk(t, inc)
  {
    (forall p :: VersionOk(t, inc, p, Version(d.now, p))) &&
    (forall p, v | p in d.pending && v in d.pending[p] :: VersionOk(t, inc, p, v)) &&
    dirs <= d.dirs && d.unsynced !! dirs
  }

  lemma OkIsUnderway(t: Target, inc: Incoming, tree: Tree)
    requires |inc.files| == |inc.payload| && AdmitSelectionOk(t, inc)
    requires forall p :: VersionOk(t, inc, p, Version(tree, p))
    ensures Underway(t, inc, tree)
  {
    hide AdmitSelection, Dealt;
    forall p
      ensures p in t.tree ==> p in tree
      ensures p in tree ==> (p in t.tree && tree[p] == t.tree[p]) || Dealt(t, inc, p, tree[p])
    {
      assert VersionOk(t, inc, p, Version(tree, p));
    }
  }

  /** What a later attempt plans, the first one might have planned. */
  lemma LaterSettled(t: Target, t1: Target, inc: Incoming, i: nat, p: string, node: Node)
    requires SecondLook(t, t1, inc) && AdmitSelectionOk(t1, inc) && i < |inc.files| == |inc.payload|
    requires AdmissionOf(t1, inc).inv == t1.inv + ExtraOf(t, inc)
    requires Settled(t1, inc, i, p, node)
    ensures Settled(t, inc, i, p, node)
  {
    hide AdmitSelection, Accepted, Dealt, MustGrow, Present, Encode, Decoded, Listed, IdsOf, IndexOf, InventoryOf;
    hide ValidIncoming;
    AcceptedLossless(t, inc);
    if p in t1.tree {
      DistinctOf(t, inc);
      IndexIs(inc, p, i);
      if Dealt(t, inc, p, t1.tree[p]) {
        SettledNow(t, t1, inc, p);
      } else {
        SameGrowth(t, t1, inc, i, p);
      }
    } else {
      PresentAgainLook(t, t1, inc, i);
    }
  }

  lemma SameGrowth(t: Target, t1: Target, inc: Incoming, i: nat, p: string)
    requires i < |inc.files| == |inc.payload| && Again(t, t1) && Listed(p)
    requires p in t.tree && p in t1.tree && t1.tree[p] == t.tree[p]
    ensures MustGrow(t1, inc, i, IdsOf(p)) == MustGrow(t, inc, i, IdsOf(p))
  {
    hide Compare, Listed, IdsOf, SameBytes;
    PathOfIds(p);
  }

  lemma LaterStep(t: Target, t1: Target, inc: Incoming, stage1: Stage, s: Step)
    requires SecondLook(t, t1, inc) && Accepted(t1, inc)
    requires StageFor(t1.w, inc, Check(t1, inc).value, stage1)
    requires s in StepsOf(t1.w, inc, Check(t1, inc).value, stage1)
    ensures Dealt(t, inc, s.path, s.node)
  {
    hide AdmitSelection, Accepted, Check, StageFor, StepsOf, Settled, InventoryOf, Underway;
    AcceptedAgain(t, t1, inc);
    StepDealt(t1, inc, stage1, s);
    var i :| 0 <= i < |inc.files| && Settled(t1, inc, i, s.path, s.node);
    LaterSettled(t, t1, inc, i, s.path, s.node);
  }

  lemma OpOk(t: Target, inc: Incoming, dirs: set<string>, d: Disk, op: Op)
    requires |inc.files| == |inc.payload| && AdmitSelectionOk(t, inc) && DiskOk(t, inc, dirs, d)
    requires op.Put? ==> Dealt(t, inc, op.step.path, op.step.node)
    ensures DiskOk(t, inc, dirs, Do(d, op)) && DiskOk(t, inc, dirs, Done(d, op))
  {
    hide AdmitSelection, Dealt, Folder, Holder;
    var d1 := Do(d, op);
    forall p
      ensures VersionOk(t, inc, p, Version(d1.now, p))
    {
      assert VersionOk(t, inc, p, Version(d.now, p));
    }
    forall p, v | p in d1.pending && v in d1.pending[p]
      ensures VersionOk(t, inc, p, v)
    {
      assert VersionOk(t, inc, p, Version(d.now, p));
    }
  }

  lemma {:induction false} OpsOk(t: Target, inc: Incoming, dirs: set<string>, d: Disk, ops: seq<Op>)
    requires |inc.files| == |inc.payload| && AdmitSelectionOk(t, inc) && DiskOk(t, inc, dirs, d)
    requires forall op | op in ops && op.Put? :: Dealt(t, inc, op.step.path, op.step.node)
    ensures DiskOk(t, inc, dirs, DoneAll(d, ops))
  {
    hide AdmitSelection, Dealt, DiskOk, Do, Done;
    if ops != [] {
      OpsOk(t, inc, dirs, d, ops[..|ops| - 1]);
      assert ops[|ops| - 1] in ops;
      OpOk(t, inc, dirs, DoneAll(d, ops[..|ops| - 1]), ops[|ops| - 1]);
    }
  }

  /** The system calls of an attempt make its planned steps and no others. */
  lemma {:induction false} PutsOf(steps: seq<Step>, op: Op)
    requires op in OpsFor(steps) && op.Put?
    ensures op.step in steps
  {
    hide Way;
    if steps != [] {
      var init, last := steps[..|steps| - 1], steps[|steps| - 1];
      assert steps == init + [last];
      if op in OpsFor(init) {
        PutsOf(init, op);
      } else {
        assert op in OpsOf(last);
      }
    }
  }

  /** One attempt from whatever is there: checked, staged, and stopped after k system calls, the last one synced or not.
      */
  ghost predicate Attempt(t: Target, inc: Incoming, d: Disk, d1: Disk, t1: Target, stage1: Stage, k: nat,
                          synced: bool) {
    t1.tree == d.now && Again(t, t1) && Accepted(t1, inc) && StageFor(t1.w, inc, Check(t1, inc).value, stage1) &&
    k <= |OpsFor(StepsOf(t1.w, inc, Check(t1, inc).value, stage1))| &&
    d1 == Attempted(d, OpsFor(StepsOf(t1.w, inc, Check(t1, inc).value, stage1))[..k], synced)
  }

  datatype Incident = Publishing(t1: Target, stage1: Stage, k: nat, synced: bool) | MachineCrash

  ghost predicate Happens(t: Target, inc: Incoming, d: Disk, d1: Disk, e: Incident) {
    match e
    case Publishing(t1, stage1, k, synced) => Attempt(t, inc, d, d1, t1, stage1, k, synced)
    case MachineCrash => CrashesTo(d, d1)
  }

  /** Attempts, failed syncs and machine crashes in any order, from the settled disk of the first check. */
  ghost predicate Course(t: Target, inc: Incoming, ds: seq<Disk>, es: seq<Incident>) {
    |ds| == |es| + 1 && ds[0] == AllSynced(t.tree, ds[0].dirs) && Rooted(t.tree, ds[0].dirs) &&
    forall i | 0 <= i < |es| :: Happens(t, inc, ds[i], ds[i + 1], es[i])
  }

  lemma AttemptOk(t: Target, inc: Incoming, dirs: set<string>, d: Disk, d1: Disk, t1: Target, stage1: Stage, k: nat,
                  synced: bool)
    requires Accepted(t, inc) && |inc.files| == |inc.payload| && AdmitSelectionOk(t, inc) && DiskOk(t, inc, dirs, d)
    requires Attempt(t, inc, d, d1, t1, stage1, k, synced)
    ensures DiskOk(t, inc, dirs, d1)
  {
    hide AdmitSelection, Check, StageFor, StepsOf, Dealt, DiskOk, Do, Done, DoneAll, ValidIncoming, Underway, OpsFor;
    AcceptedFacts(t1, inc);
    AllVersions(t, inc, dirs, d);
    OkIsUnderway(t, inc, d.now);
    var steps := StepsOf(t1.w, inc, Check(t1, inc).value, stage1);
    var ops := OpsFor(steps)[..k];
    forall op | op in ops && op.Put?
      ensures Dealt(t, inc, op.step.path, op.step.node)
    {
      assert op in OpsFor(steps);
      PutsOf(steps, op);
      LaterStep(t, t1, inc, stage1, op.step);
    }
    if ops != [] {
      var n := |ops| - 1;
      OpsOk(t, inc, dirs, d, ops[..n]);
      assert ops[n] in ops;
      OpOk(t, inc, dirs, DoneAll(d, ops[..n]), ops[n]);
    }
  }

  lemma AllVersions(t: Target, inc: Incoming, dirs: set<string>, d: Disk)
    requires |inc.files| == |inc.payload| && AdmitSelectionOk(t, inc) && DiskOk(t, inc, dirs, d)
    ensures forall p :: VersionOk(t, inc, p, Version(d.now, p))
  {
    hide AdmitSelection, VersionOk;
  }

  lemma LeftOk(t: Target, inc: Incoming, dirs: set<string>, d: Disk, lost: set<string>, after: Tree)
    requires |inc.files| == |inc.payload| && AdmitSelectionOk(t, inc) && DiskOk(t, inc, dirs, d)
    requires Rooted(t.tree, dirs) && Leaves(d, lost, after)
    ensures forall p :: VersionOk(t, inc, p, Version(after, p))
  {
    hide AdmitSelection, Dealt, Way, Above;
    forall p
      ensures VersionOk(t, inc, p, Version(after, p))
    {
      if LiesIn(p, lost) {
        assert p !in t.tree;
      } else {
        assert VersionLeft(d, p, Version(after, p));
      }
    }
  }

  lemma CrashOk(t: Target, inc: Incoming, dirs: set<string>, d: Disk, d1: Disk)
    requires |inc.files| == |inc.payload| && AdmitSelectionOk(t, inc) && DiskOk(t, inc, dirs, d)
    requires Rooted(t.tree, dirs) && CrashesTo(d, d1)
    ensures DiskOk(t, inc, dirs, d1)
  {
    hide AdmitSelection, VersionOk, Way, Above, Leaves;
    var lost :| Leaves(d, lost, d1.now) && d1.dirs == DirsLeft(d.dirs, lost);
    LeftOk(t, inc, dirs, d, lost, d1.now);
    LostIsNew(d, lost, d1.now);
    assert forall dir | dir in dirs :: dir in DirsLeft(d.dirs, lost);
  }

  lemma {:induction false} CourseOk(t: Target, inc: Incoming, ds: seq<Disk>, es: seq<Incident>, i: nat)
    requires Accepted(t, inc) && |inc.files| == |inc.payload| && AdmitSelectionOk(t, inc) && Course(t, inc, ds, es)
    requires i < |ds|
    ensures DiskOk(t, inc, ds[0].dirs, ds[i])
  {
    hide AdmitSelection, Accepted, Attempt, CrashesTo, Dealt, Rooted;
    if i > 0 {
      CourseOk(t, inc, ds, es, i - 1);
      hide DiskOk;
      assert Happens(t, inc, ds[i - 1], ds[i - 1 + 1], es[i - 1]);
      match es[i - 1]
      case Publishing(t1, stage1, k, synced) => AttemptOk(t, inc, ds[0].dirs, ds[i - 1], ds[i], t1, stage1, k, synced);
      case MachineCrash => CrashOk(t, inc, ds[0].dirs, ds[i - 1], ds[i]);
    }
  }

  lemma CourseUnderway(t: Target, inc: Incoming, ds: seq<Disk>, es: seq<Incident>)
    requires Accepted(t, inc) && Course(t, inc, ds, es)
    ensures |inc.files| == |inc.payload| && AdmitSelectionOk(t, inc) && ds != []
    ensures Underway(t, inc, ds[|ds| - 1].now)
    ensures forall after | MayLeave(ds[|ds| - 1], after) :: Underway(t, inc, after)
  {
    hide AdmitSelection, Check, Underway, DiskOk, Happens, VersionOk, Leaves, Rooted, Accepted;
    AcceptedFacts(t, inc);
    CourseOk(t, inc, ds, es, |ds| - 1);
    var d := ds[|ds| - 1];
    AllVersions(t, inc, ds[0].dirs, d);
    OkIsUnderway(t, inc, d.now);
    forall after | MayLeave(d, after)
      ensures Underway(t, inc, after)
    {
      var lost :| Leaves(d, lost, after);
      LeftOk(t, inc, ds[0].dirs, d, lost, after);
      OkIsUnderway(t, inc, after);
    }
  }

  /** Convergence over machine crashes: after any number of attempts, stopped after any system call and with any of
      their last syncs failed, and any number of machine crashes losing whatever was not synced, directories included,
      the same check accepts again, and a publication that runs to its end leaves exactly what the first one would have
      left. */
  lemma CrashesConverge(t: Target, inc: Incoming, stage: Stage, ds: seq<Disk>, es: seq<Incident>, t1: Target,
                        stage1: Stage)
    requires Accepted(t, inc) && StageFor(t.w, inc, Check(t, inc).value, stage)
    requires Course(t, inc, ds, es) && t1.tree == ds[|ds| - 1].now && InventoryOf(t1.tree, t1.inv) && Again(t, t1)
    requires Check(t1, inc).Ok? ==> StageFor(t1.w, inc, Check(t1, inc).value, stage1)
    ensures Accepted(t1, inc) && StageFor(t1.w, inc, Check(t1, inc).value, stage1)
    ensures View(Apply(t1.tree, StepsOf(t1.w, inc, Check(t1, inc).value, stage1))) ==
            View(Apply(t.tree, StepsOf(t.w, inc, Check(t, inc).value, stage)))
  {
    hide AdmitSelection, Check, StepsOf, StageFor, Underway, ValidIncoming, FinalView, View, InventoryOf, Course;
    CourseUnderway(t, inc, ds, es);
    SameAim(t, t1, inc);
    PublicationReaches(t, inc, stage);
    PublicationReaches(t1, inc, stage1);
  }

  // ---- what a retry leaves unsynced ----

  /** A retry finds files and directories present that an earlier attempt made without a successful sync, and does not
      sync them again. When it has run to its end, nothing can be taken back any more if and only if, for every path,
      the file's own entry and the entry of every component of its path had been synced since they were made, or are
      held by a directory in which the retry itself has made something. */
  lemma RetryDurable(inc: Incoming, d: Disk, t1: Target, stage1: Stage)
    requires Accepted(t1, inc) && StageFor(t1.w, inc, Check(t1, inc).value, stage1) && t1.tree == d.now
    ensures var ops := OpsFor(StepsOf(t1.w, inc, Check(t1, inc).value, stage1));
            Durable(DoneAll(d, ops)) <==> forall p :: SecuredBy(d, ops, p)
    ensures var steps := StepsOf(t1.w, inc, Check(t1, inc).value, stage1);
            DoneAll(d, OpsFor(steps)).now == Apply(d.now, steps)
  {
    hide Accepted, Check, StageFor, StepsOf, OpsFor, SecuredBy, Durable, DoneAll, PutsIn, Apply;
    AcceptedFacts(t1, inc);
    var steps := StepsOf(t1.w, inc, Check(t1, inc).value, stage1);
    var ops := OpsFor(steps);
    CompleteDurable(d, ops);
    DoneAllIs(d, ops);
    var m := StepsMade(steps, |ops|);
    assert ops[..|ops|] == ops && steps[..m] == steps;
  }

  lemma PresentBy(inc: Incoming, a: Admission, i: nat, c: Candidate)
    requires i < |inc.files|
    ensures c in a.inv && Usable(inc, i, c) ==> Present(inc, a, i)
  {
  }

  /** Without its path an absent prerequisite cannot be reached. */
  lemma Unreachable(t: Target, t1: Target, inc: Incoming, i: nat)
    requires SecondLook(t, t1, inc) && i < |inc.files| && inc.files[i].prefix
    requires !Present(inc, AdmissionOf(t, inc), i) && inc.files[i].path !in t1.tree
    ensures !Reachable(t1, inc, i)
  {
    hide AdmitSelection, Accepted, Dealt, Agree, InventoryOf, Underway;
    AcceptedAgain(t, t1, inc);
    PresentAgainLook(t, t1, inc, i);
    var cs := ByRollout(t1.inv, inc.files[i].rollout);
    if cs != [] {
      assert cs[0] in cs;
      PresentBy(inc, AdmissionOf(t1, inc), i, cs[0]);
    }
  }

  /** What that means for the closure of histories. After any number of attempts and crashes, an inherited rollout that
      was absent at the beginning can be gone after one more machine crash if and only if it is not there now, or its
      link has not been synced, or a component of its directory has not; and then the lineage is broken until the next
      run. */
  lemma InheritedAtRisk(t: Target, inc: Incoming, ds: seq<Disk>, es: seq<Incident>, i: nat)
    requires Accepted(t, inc) && Course(t, inc, ds, es) && AdmitSelectionOk(t, inc) && i < |inc.files|
    requires inc.files[i].prefix && !Present(inc, AdmissionOf(t, inc), i)
    ensures ds != []
    ensures (exists after :: MayLeave(ds[|ds| - 1], after) && inc.files[i].path !in after) <==>
            AtRisk(ds[|ds| - 1], inc.files[i].path)
    ensures forall after, inv | MayLeave(ds[|ds| - 1], after) && inc.files[i].path !in after &&
              InventoryOf(after, inv) :: !Reachable(Target(t.w, t.limits, after, inv, t.sel), inc, i)
  {
    hide AdmitSelection, Accepted, Course, MayLeave, AtRisk, Underway, Reachable, InventoryOf, Present;
    CourseUnderway(t, inc, ds, es);
    var d := ds[|ds| - 1];
    GoneExactly(d, inc.files[i].path);
    forall after, inv | MayLeave(d, after) && inc.files[i].path !in after && InventoryOf(after, inv)
      ensures !Reachable(Target(t.w, t.limits, after, inv, t.sel), inc, i)
    {
      Unreachable(t, Target(t.w, t.limits, after, inv, t.sel), inc, i);
    }
  }

  // ---- a retry that is not durable ----

  lemma {:induction false} AboveShorter(folder: string, dir: string)
    requires dir in Above(folder)
    ensures dir != "" && |dir| <= |folder| && (dir != folder ==> dir in Above(Holder(folder)))
    decreases |folder|
  {
    hide Holder;
    if dir != folder && folder != "" {
      AboveShorter(Holder(folder), dir);
    }
  }

  /** The components of a path lie each in another directory. */
  lemma {:induction false} HoldersDiffer(folder: string, a: string, b: string)
    requires a in Above(folder) && b in Above(folder) && Holder(a) == Holder(b)
    ensures a == b
    decreases |folder|
  {
    hide Holder;
    AboveShorter(folder, a);
    AboveShorter(folder, b);
    if a != folder && b != folder {
      HoldersDiffer(Holder(folder), a, b);
    } else if a != folder {
      AboveShorter(Holder(folder), a);
    } else if b != folder {
      AboveShorter(Holder(folder), b);
    }
  }

  lemma OneOps(path: string, node: Node)
    ensures OpsFor([Install(path, node)]) == Mkdirs(Way(path)) + [Put(Install(path, node))]
  {
    hide Way;
    assert [Install(path, node)][..0] == [];
    assert [] + OpsOf(Install(path, node)) == OpsOf(Install(path, node));
  }

  /** Where an attempt has made a component of a path and has not synced it, making the path's file once more from there
      does not sync it either. */
  lemma NotSyncedAgain(d: Disk, path: string, node: Node, dir: string)
    requires dir in d.dirs && dir in Way(path)
    ensures Holder(dir) !in Syncs(d.dirs, OpsFor([Install(path, node)]))
  {
    hide Holder, Folder, Above;
    OneOps(path, node);
    var ops := OpsFor([Install(path, node)]);
    AboveShorter(Folder(path), dir);
    forall op | op in ops && SyncedBy(d.dirs, op).Some?
      ensures SyncedBy(d.dirs, op).value != Holder(dir)
    {
      if op.Mkdir? && Holder(op.dir) == Holder(dir) {
        assert op.dir in Way(path);
        HoldersDiffer(Folder(path), op.dir, dir);
      }
    }
  }

  /** It does happen, to every publication of one new file below a directory that is not there yet: the first attempt
      makes the directory and its sync fails; the retry runs to its end; a machine crash then takes the directory back,
      and the file with it. */
  lemma DirectoryTakenBack(t: Target, inc: Incoming, stage: Stage, dirs: set<string>, path: string, node: Node,
                           dir: string)
    returns (ds: seq<Disk>, es: seq<Incident>)
    requires Accepted(t, inc) && StageFor(t.w, inc, Check(t, inc).value, stage) && Rooted(t.tree, dirs)
    requires StepsOf(t.w, inc, Check(t, inc).value, stage) == [Install(path, node)]
    requires dir in Way(path) && dir !in dirs
    ensures Course(t, inc, ds, es) && |es| == 2 && es[0].Publishing? && !es[0].synced
    ensures es[1] == Publishing(t, stage, |OpsFor([Install(path, node)])|, true)
    ensures ds[2].now == Apply(t.tree, [Install(path, node)]) && path in ds[2].now
    ensures exists after :: MayLeave(ds[2], after) && path !in after
  {
    hide Accepted, Check, StageFor, StepsOf, OpsFor, Way, Rooted, MayLeave, DoneAll, Apply, Attempted, AtRisk;
    AcceptedFacts(t, inc);
    var ops := OpsFor([Install(path, node)]);
    var j :| 0 <= j < |Way(path)| && Way(path)[j] == dir;
    var d0 := AllSynced(t.tree, dirs);
    TwoAttempts(d0, path, node, j);
    var d1 := Attempted(d0, ops[..j + 1], false);
    var d2 := DoneAll(d1, ops);
    assert ops[..|ops|] == ops;
    WholeAttempt(d1, ops, true);
    GoneExactly(d2, path);
    ds, es := [d0, d1, d2], [Publishing(t, stage, j + 1, false), Publishing(t, stage, |ops|, true)];
    assert Attempt(t, inc, d0, d1, t, stage, j + 1, false) && Attempt(t, inc, d1, d2, t, stage, |ops|, true);
    assert Happens(t, inc, ds[0], ds[1], es[0]) && Happens(t, inc, ds[1], ds[2], es[1]);
  }

  lemma TwoAttempts(d: Disk, path: string, node: Node, j: nat)
    requires d == AllSynced(d.now, d.dirs) && j < |Way(path)| && Way(path)[j] !in d.dirs
    ensures j + 1 <= |OpsFor([Install(path, node)])|
    ensures var ops := OpsFor([Install(path, node)]);
            var d1 := Attempted(d, ops[..j + 1], false);
            var d2 := DoneAll(d1, ops);
            d1.now == d.now && d2.now == Apply(d.now, [Install(path, node)]) && path in d2.now && AtRisk(d2, path)
  {
    hide Way, DoneAll, Apply, PutsIn, Holder, Attempted, OpsFor, Syncs;
    FirstMkdir(d, path, node, j);
    var steps, ops, dir := [Install(path, node)], OpsFor([Install(path, node)]), Way(path)[j];
    var d1 := Attempted(d, ops[..j + 1], false);
    NotSyncedAgain(d1, path, node, dir);
    DoneAllIs(d1, ops);
    var m := StepsMade(steps, |ops|);
    assert steps[..m] == steps && ops[..|ops|] == ops;
    InstallThere(d.now, path, node);
    assert dir in DoneAll(d1, ops).unsynced;
  }

  lemma InstallThere(tree: Tree, path: string, node: Node)
    ensures path in Apply(tree, [Install(path, node)])
  {
  }

  /** Before its j-th component is synced, an attempt has changed no file. */
  lemma FirstMkdir(d: Disk, path: string, node: Node, j: nat)
    requires d == AllSynced(d.now, d.dirs) && j < |Way(path)| && Way(path)[j] !in d.dirs
    ensures j + 1 <= |OpsFor([Install(path, node)])|
    ensures var d1 := Attempted(d, OpsFor([Install(path, node)])[..j + 1], false);
            d1.now == d.now && Way(path)[j] in d1.dirs && Way(path)[j] in d1.unsynced
  {
    hide Holder, Folder, Above, OpsFor, Syncs, DoneAll, PutsIn;
    OneOps(path, node);
    var ops, dirs := OpsFor([Install(path, node)]), Way(path);
    var init := ops[..j];
    assert ops[..j + 1][..j] == init && init == Mkdirs(dirs)[..j] && ops[j] == Mkdir(dirs[j]);
    DoneAllIs(d, init);
    NoPuts(dirs, j);
    if Mkdir(dirs[j]) in init {
      var i :| 0 <= i < j && init[i] == Mkdir(dirs[j]);
      WayDistinct(Folder(path), i, j);
    }
  }

  lemma {:induction false} WayDistinct(folder: string, i: nat, j: nat)
    requires i < j < |Above(folder)|
    ensures Above(folder)[i] != Above(folder)[j]
    decreases |folder|
  {
    hide Holder;
    var outer := Above(Holder(folder));
    if j < |outer| {
      WayDistinct(Holder(folder), i, j);
    } else {
      assert outer[i] in outer;
      AboveShorter(Holder(folder), outer[i]);
    }
  }
}
