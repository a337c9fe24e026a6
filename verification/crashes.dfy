// What every machine crash keeps of live storage, whoever was publishing: publish of internal/session/publish.go under
// the directory syncs of extend.go and stage.go.

module Crashes {
  import opened Model
  import opened Format
  import opened Rollout
  import opened Inspect
  import opened Lineage
  import opened Steps
  import opened NonInterference
  import opened Schedule
  import opened Disks

  // ---- safe changes, each under the rows of its time ----

  datatype Change = Change(step: Step, rows: Rows)

  function TreeOf(tree: Tree, cs: seq<Change>): Tree {
    if cs == [] then tree else ApplyStep(TreeOf(tree, cs[..|cs| - 1]), cs[|cs| - 1].step)
  }

  ghost predicate SafeChanges(w: World, tree: Tree, cs: seq<Change>) {
    cs == [] ||
    (var init, last := cs[..|cs| - 1], cs[|cs| - 1];
     SafeChanges(w, tree, init) && Safe(w, TreeOf(tree, init), last.rows, last.step))
  }

  lemma OneChange(w: World, tree: Tree, cs: seq<Change>, c: Change)
    ensures TreeOf(tree, cs + [c]) == ApplyStep(TreeOf(tree, cs), c.step)
    ensures SafeChanges(w, tree, cs) && Safe(w, TreeOf(tree, cs), c.rows, c.step) ==> SafeChanges(w, tree, cs + [c])
  {
    hide Safe;
    assert (cs + [c])[..|cs|] == cs;
  }

  /** Append-only storage between any two moments. */
  lemma {:induction false} ChangesAppend(w: World, tree: Tree, cs: seq<Change>, k: nat)
    requires SafeChanges(w, tree, cs) && k <= |cs|
    ensures AppendOnly(w, TreeOf(tree, cs[..k]), TreeOf(tree, cs))
  {
    hide Safe, AppendOnly;
    if k == |cs| {
      assert cs[..k] == cs;
      NothingAppends(w, TreeOf(tree, cs));
    } else {
      var init, last := cs[..|cs| - 1], cs[|cs| - 1];
      ChangesAppend(w, tree, init, k);
      assert init[..k] == cs[..k];
      StepAppends(w, TreeOf(tree, init), last.rows, last.step);
      AppendsCompose(w, TreeOf(tree, cs[..k]), TreeOf(tree, init), TreeOf(tree, cs));
    }
  }

  /** Non-interference over changes under changing rows: a thread whose own row stays keeps its lineage. */
  lemma {:induction false} ChangesNonInterference(w: World, cs: seq<Change>, sel: Option<Selection>, e0: Env, e1: Env,
                                                  thread: string)
    requires CollisionFree(w) && e0.w == w == e1.w && e0.limits.Valid() && SafeChanges(w, e0.tree, cs)
    requires InventoryOf(e0.tree, e0.inv) && InventoryOf(e1.tree, e1.inv)
    requires e1.limits == e0.limits && e1.snapshot == e0.snapshot && e1.tree == TreeOf(e0.tree, cs)
    requires ParseID(thread).Some? && Resolve(e0, thread, sel, sel).Ok?
    requires forall c | c in cs :: RowOf(c.rows, ParseID(thread).value) == sel
    ensures Resolve(e1, thread, sel, sel).Ok?
    ensures SameLineage(Resolve(e0, thread, sel, sel).value.files, Resolve(e1, thread, sel, sel).value.files)
    decreases |cs|
  {
    hide Safe, Resolve, SameLineage, CollisionFree, InventoryOf;
    var id := ParseID(thread).value;
    if cs == [] {
      var rows: Rows := if sel.Some? then map[id := sel.value] else map[];
      assert RowOf(rows, id) == sel;
      StepNonInterference(w, rows, None, e0, e1, thread);
    } else {
      var init, last := cs[..|cs| - 1], cs[|cs| - 1];
      var mid := TreeOf(e0.tree, init);
      var inv := InventoryExists(mid);
      var e := Env(w, mid, inv, e0.limits, e0.snapshot);
      ChangesNonInterference(w, init, sel, e0, e, thread);
      assert last in cs;
      StepNonInterference(w, last.rows, Some(last.step), e, e1, thread);
      SameLineageTransitive(Resolve(e0, thread, sel, sel).value.files, Resolve(e, thread, sel, sel).value.files,
                            Resolve(e1, thread, sel, sel).value.files);
    }
  }

  // ---- trees that mix versions of different moments ----

  predicate HadVersion(tree: Tree, cs: seq<Change>, p: string, v: Option<Node>) {
    exists k :: 0 <= k <= |cs| && v == Version(TreeOf(tree, cs[..k]), p)
  }

  /** Every path has one of the versions it ever had, each path its own. */
  ghost predicate Mixed(tree: Tree, cs: seq<Change>, after: Tree) {
    forall p :: HadVersion(tree, cs, p, Version(after, p))
  }

  lemma VersionOnce(tree: Tree, cs: seq<Change>, c: Change, p: string, v: Option<Node>)
    ensures HadVersion(tree, cs, p, v) ==> HadVersion(tree, cs + [c], p, v)
    ensures HadVersion(tree, cs + [c], p, v) ==>
              HadVersion(tree, cs, p, v) || (p == c.step.path && v == Some(c.step.node))
  {
    var more := cs + [c];
    if k :| 0 <= k <= |cs| && v == Version(TreeOf(tree, cs[..k]), p) {
      assert more[..k] == cs[..k];
    }
    if k :| 0 <= k <= |more| && v == Version(TreeOf(tree, more[..k]), p) {
      if k <= |cs| {
        assert more[..k] == cs[..k];
      } else {
        assert more[..k] == more && more[..|cs|] == cs && cs[..|cs|] == cs;
      }
    }
  }

  lemma VersionNow(tree: Tree, cs: seq<Change>, p: string)
    ensures HadVersion(tree, cs, p, Version(TreeOf(tree, cs), p)) && HadVersion(tree, cs, p, Version(tree, p))
  {
    assert cs[..|cs|] == cs && cs[..0] == [];
  }

  /** A version of an earlier moment is what it is now, or a shorter managed prerequisite. */
  lemma EarlierVersion(w: World, tree: Tree, cs: seq<Change>, q: string, node: Node)
    requires SafeChanges(w, tree, cs) && HadVersion(tree, cs, q, Some(node))
    ensures var now := TreeOf(tree, cs);
            q in now && (now[q] == node || (PrerequisitePath(q) && Grows(Visible(w, q, node), Visible(w, q, now[q]))))
  {
    hide Safe, PrerequisitePath, Visible, Grows;
    var k :| 0 <= k <= |cs| && Some(node) == Version(TreeOf(tree, cs[..k]), q);
    ChangesAppend(w, tree, cs, k);
  }

  lemma GrowsTransitive(a: Stream, b: Stream, c: Stream)
    requires Grows(a, b) && Grows(b, c)
    ensures Grows(a, c)
  {
  }

  /** A change that was safe is safe on every mixture of earlier versions, if its own path is as it was. */
  lemma SafeOnMixed(w: World, tree: Tree, cs: seq<Change>, after: Tree, c: Change)
    requires SafeChanges(w, tree, cs) && Mixed(tree, cs, after) && Safe(w, TreeOf(tree, cs), c.rows, c.step)
    requires Version(after, c.step.path) == Version(TreeOf(tree, cs), c.step.path)
    ensures Safe(w, after, c.rows, c.step)
  {
    hide SafeChanges, HadVersion, Listed, IdsOf, PrerequisitePath, Visible, Grows, TreeOf;
    var now, s := TreeOf(tree, cs), c.step;
    forall q | q in after
      ensures q in now
      ensures now[q] == after[q] || Grows(Visible(w, q, after[q]), Visible(w, q, now[q]))
    {
      assert HadVersion(tree, cs, q, Version(after, q));
      EarlierVersion(w, tree, cs, q, after[q]);
    }
    if s.Install? {
      forall q | q in after && Listed(q) && IdsOf(q).rollout == IdsOf(s.path).rollout
        ensures Continued(w, after, s.path, s.node, q)
      {
        assert Continued(w, now, s.path, s.node, q);
        if now[q] != after[q] {
          GrowsTransitive(Visible(w, q, after[q]), Visible(w, q, now[q]), Visible(w, s.path, s.node));
        }
      }
    }
  }

  /** Every mixture of versions is what some of the changes alone, made in their order, would have left, each of them
      safe. */
  lemma {:induction false} Rebuilt(w: World, tree: Tree, cs: seq<Change>, after: Tree) returns (sub: seq<Change>)
    requires SafeChanges(w, tree, cs) && Mixed(tree, cs, after)
    ensures SafeChanges(w, tree, sub) && TreeOf(tree, sub) == after && forall c | c in sub :: c in cs
    decreases |cs|
  {
    hide Safe, HadVersion;
    if cs == [] {
      sub := [];
      forall p
        ensures Version(after, p) == Version(tree, p)
      {
        assert HadVersion(tree, cs, p, Version(after, p));
        OnlyVersion(tree, p, Version(after, p));
      }
      SameVersions(after, tree);
    } else {
      var init, c := cs[..|cs| - 1], cs[|cs| - 1];
      assert cs == init + [c];
      var p := c.step.path;
      forall q
        ensures HadVersion(tree, init, q, Version(after, q)) || (q == p && Version(after, p) == Some(c.step.node))
      {
        assert HadVersion(tree, cs, q, Version(after, q));
        VersionOnce(tree, init, c, q, Version(after, q));
      }
      if HadVersion(tree, init, p, Version(after, p)) {
        sub := Rebuilt(w, tree, init, after);
      } else {
        var now := TreeOf(tree, init);
        var prior := Back(after, p, Version(now, p));
        VersionNow(tree, init, p);
        sub := Rebuilt(w, tree, init, prior);
        SafeOnMixed(w, tree, init, prior, c);
        OneChange(w, tree, sub, c);
        forall q
          ensures Version(ApplyStep(prior, c.step), q) == Version(after, q)
        {
        }
        SameVersions(ApplyStep(prior, c.step), after);
        sub := sub + [c];
      }
    }
  }

  lemma OnlyVersion(tree: Tree, p: string, v: Option<Node>)
    requires HadVersion(tree, [], p, v)
    ensures v == Version(tree, p)
  {
  }

  // ---- disks on which safe changes are made ----

  /** One system call of any publisher, synced or not, under the rows of its time, or a machine crash. */
  datatype DiskEvent = Call(op: Op, rows: Rows, synced: bool) | MachineCrash

  ghost predicate DiskNext(w: World, d: Disk, d1: Disk, e: DiskEvent) {
    match e
    case Call(op, rows, synced) =>
      (op.Put? ==> Safe(w, d.now, rows, op.step)) && d1 == if synced then Done(d, op) else Do(d, op)
    case MachineCrash => CrashesTo(d, d1)
  }

  /** Every directory of every stored file is among these. */
  predicate Rooted(tree: Tree, dirs: set<string>) {
    (forall p | p in tree :: forall dir | dir in Way(p) :: dir in dirs) &&
    forall dir | dir in dirs :: forall c | c in Above(dir) :: c in dirs
  }

  ghost predicate DiskRun(w: World, ds: seq<Disk>, es: seq<DiskEvent>) {
    |ds| == |es| + 1 && ds[0] == AllSynced(ds[0].now, ds[0].dirs) && Rooted(ds[0].now, ds[0].dirs) &&
    forall i | 0 <= i < |es| :: DiskNext(w, ds[i], ds[i + 1], es[i])
  }

  /** The disk as safe changes have left it: each unsynced version is one of an earlier moment, and only directories
      made since the beginning can be lost. */
  ghost predicate Traced(w: World, tree: Tree, dirs: set<string>, d: Disk, cs: seq<Change>) {
    SafeChanges(w, tree, cs) && d.now == TreeOf(tree, cs) && dirs <= d.dirs && d.unsynced !! dirs &&
    forall p, v | p in d.pending && v in d.pending[p] :: HadVersion(tree, cs, p, v)
  }

  lemma CallTraced(w: World, tree: Tree, dirs: set<string>, d: Disk, cs: seq<Change>, op: Op, rows: Rows)
    returns (more: seq<Change>)
    requires Traced(w, tree, dirs, d, cs) && (op.Put? ==> Safe(w, d.now, rows, op.step))
    ensures Traced(w, tree, dirs, Do(d, op), more) && Traced(w, tree, dirs, Done(d, op), more)
    ensures more == if op.Put? then cs + [Change(op.step, rows)] else cs
  {
    hide Safe, HadVersion, SafeChanges, TreeOf, Folder, Holder;
    if op.Put? {
      var c := Change(op.step, rows);
      more := cs + [c];
      OneChange(w, tree, cs, c);
      VersionNow(tree, cs, op.step.path);
      forall p, v | p in Do(d, op).pending && v in Do(d, op).pending[p]
        ensures HadVersion(tree, more, p, v)
      {
        VersionOnce(tree, cs, c, p, v);
      }
    } else {
      more := cs;
    }
  }

  /** Whatever a crash may leave is a mixture of versions. */
  lemma LeavesMixed(w: World, tree: Tree, dirs: set<string>, d: Disk, cs: seq<Change>, lost: set<string>, after: Tree)
    requires Traced(w, tree, dirs, d, cs) && Rooted(tree, dirs) && Leaves(d, lost, after)
    ensures Mixed(tree, cs, after)
  {
    hide HadVersion, SafeChanges, TreeOf, Way, Above;
    forall p
      ensures HadVersion(tree, cs, p, Version(after, p))
    {
      VersionNow(tree, cs, p);
      if LiesIn(p, lost) {
        assert p !in tree;
      } else {
        assert VersionLeft(d, p, Version(after, p));
      }
    }
  }

  lemma CrashTraced(w: World, tree: Tree, dirs: set<string>, d: Disk, cs: seq<Change>, d1: Disk)
    returns (sub: seq<Change>)
    requires Traced(w, tree, dirs, d, cs) && Rooted(tree, dirs) && CrashesTo(d, d1)
    ensures Traced(w, tree, dirs, d1, sub) && forall c | c in sub :: c in cs
  {
    hide HadVersion, SafeChanges, TreeOf, Way, Above, Leaves, Mixed;
    var lost :| Leaves(d, lost, d1.now) && d1.dirs == DirsLeft(d.dirs, lost);
    LeavesMixed(w, tree, dirs, d, cs, lost, d1.now);
    sub := Rebuilt(w, tree, cs, d1.now);
    LostIsNew(d, lost, d1.now);
    assert forall dir | dir in dirs :: dir in DirsLeft(d.dirs, lost);
  }

  lemma LostIsNew(d: Disk, lost: set<string>, after: Tree)
    requires Leaves(d, lost, after)
    ensures lost <= d.unsynced
  {
  }

  lemma {:induction false} RunTraced(w: World, ds: seq<Disk>, es: seq<DiskEvent>, n: nat) returns (cs: seq<Change>)
    requires DiskRun(w, ds, es) && n < |ds|
    ensures Traced(w, ds[0].now, ds[0].dirs, ds[n], cs)
    ensures forall c | c in cs :: exists i | 0 <= i < n :: es[i].Call? && es[i].rows == c.rows
  {
    hide Safe, HadVersion, Do, Done, CrashesTo, Rooted;
    if n == 0 {
      cs := [];
    } else {
      var before := RunTraced(w, ds, es, n - 1);
      assert DiskNext(w, ds[n - 1], ds[n - 1 + 1], es[n - 1]);
      hide Traced;
      match es[n - 1]
      case Call(op, rows, synced) =>
        cs := CallTraced(w, ds[0].now, ds[0].dirs, ds[n - 1], before, op, rows);
      case MachineCrash =>
        cs := CrashTraced(w, ds[0].now, ds[0].dirs, ds[n - 1], before, ds[n]);
    }
  }

  /** Append-only storage over machine crashes: any number of publishers make safe changes, some of their syncs fail or
      never come, machines crash and lose what they can, others go on; every file that was there at the beginning is
      there, byte for byte, except that a managed prerequisite may have grown at its end. */
  lemma CrashesAppend(w: World, ds: seq<Disk>, es: seq<DiskEvent>, n: nat)
    requires DiskRun(w, ds, es) && n < |ds|
    ensures AppendOnly(w, ds[0].now, ds[n].now)
  {
    hide Safe, AppendOnly, DiskRun, HadVersion;
    var cs := RunTraced(w, ds, es, n);
    ChangesAppend(w, ds[0].now, cs, 0);
    assert cs[..0] == [];
  }

  /** Non-interference over machine crashes: at every moment of such a run each thread that resolved at the beginning,
      and whose row stays as it was, resolves to the same rollouts, sizes and digests. */
  lemma CrashesNonInterference(w: World, ds: seq<Disk>, es: seq<DiskEvent>, n: nat, sel: Option<Selection>, e0: Env,
                               e1: Env, thread: string)
    requires DiskRun(w, ds, es) && n < |ds| && CollisionFree(w) && e0.w == w == e1.w && e0.limits.Valid()
    requires e1.limits == e0.limits && e1.snapshot == e0.snapshot && e0.tree == ds[0].now && e1.tree == ds[n].now
    requires InventoryOf(e0.tree, e0.inv) && InventoryOf(e1.tree, e1.inv)
    requires ParseID(thread).Some? && Resolve(e0, thread, sel, sel).Ok?
    requires forall i | 0 <= i < n && es[i].Call? :: RowOf(es[i].rows, ParseID(thread).value) == sel
    ensures Resolve(e1, thread, sel, sel).Ok?
    ensures SameLineage(Resolve(e0, thread, sel, sel).value.files, Resolve(e1, thread, sel, sel).value.files)
  {
    hide Safe, Resolve, SameLineage, CollisionFree, InventoryOf, DiskRun, HadVersion, SafeChanges;
    var cs := RunTraced(w, ds, es, n);
    ChangesNonInterference(w, cs, sel, e0, e1, thread);
  }
}
