// Whole runs of publication steps, stopped anywhere, one publisher's or several publishers' interleaved:
// internal/session/publish.go.

module Schedule {
  import opened Model
  import opened Format
  import opened Rollout
  import opened Inspect
  import opened Lineage
  import opened Steps
  import opened NonInterference

  /** Each step was safe when it was made. */
  ghost predicate SafeRun(w: World, tree: Tree, rows: Rows, steps: seq<Step>) {
    steps == [] ||
    (var init := steps[..|steps| - 1];
     SafeRun(w, tree, rows, init) && Safe(w, Apply(tree, init), rows, steps[|steps| - 1]))
  }

  // ---- what every safe run keeps ----

  /** Append-only storage over whole runs. */
  lemma {:induction false} RunAppends(w: World, tree: Tree, rows: Rows, steps: seq<Step>)
    requires SafeRun(w, tree, rows, steps)
    ensures AppendOnly(w, tree, Apply(tree, steps))
  {
    hide Safe, AppendOnly;
    if steps == [] {
      NothingAppends(w, tree);
    } else {
      var init := steps[..|steps| - 1];
      RunAppends(w, tree, rows, init);
      StepAppends(w, Apply(tree, init), rows, steps[|steps| - 1]);
      AppendsCompose(w, tree, Apply(tree, init), Apply(tree, steps));
    }
  }

  lemma NothingAppends(w: World, tree: Tree)
    ensures AppendOnly(w, tree, tree)
  {
  }

  ghost function ListOf(s: set<Candidate>): (r: seq<Candidate>)
    ensures forall c :: c in r <==> c in s
    ensures forall i, j | 0 <= i < j < |r| :: r[i] != r[j]
  {
    if s == {} then []
    else
      var c :| c in s;
      [c] + ListOf(s - {c})
  }

  /** Every tree has an inventory. */
  lemma InventoryExists(tree: Tree) returns (inv: seq<Candidate>)
    ensures InventoryOf(tree, inv)
  {
    hide ManagedPath;
    var all := set p | p in tree && Listed(p) :: IdsOf(p);
    inv := ListOf(all);
    forall c | c in inv
      ensures c.path in tree && Listed(c.path) && ParseName(c.path) == Some(c)
    {
      var p :| p in tree && Listed(p) && c == IdsOf(p);
      ParsedPath(p);
    }
  }

  lemma SameLineageTransitive(a: seq<File>, b: seq<File>, c: seq<File>)
    requires SameLineage(a, b) && SameLineage(b, c)
    ensures SameLineage(a, c)
  {
    forall i | 0 <= i < |a|
      ensures SameHistory(a[i], c[i])
    {
      assert SameHistory(a[i], b[i]) && SameHistory(b[i], c[i]);
    }
  }

  /** The outcome of inspecting a thread with its own row. */
  function Finds(env: Env, rows: Rows, thread: string): Result<Plan>
    requires ParseID(thread).Some?
  {
    var sel := RowOf(rows, ParseID(thread).value);
    Resolve(env, thread, sel, sel)
  }

  /** Non-interference over whole runs: whatever a safe run has done so far, each thread that resolved before it
      resolves to the same rollouts, sizes and digests, under every inventory order and every reader's limits. */
  lemma {:induction false} RunNonInterference(w: World, rows: Rows, steps: seq<Step>, e0: Env, e1: Env, thread: string)
    requires CollisionFree(w) && e0.w == w && e0.limits.Valid() && SafeRun(w, e0.tree, rows, steps)
    requires InventoryOf(e0.tree, e0.inv) && InventoryOf(e1.tree, e1.inv)
    requires e1.w == w && e1.limits == e0.limits && e1.snapshot == e0.snapshot && e1.tree == Apply(e0.tree, steps)
    requires ParseID(thread).Some? && Finds(e0, rows, thread).Ok?
    ensures Finds(e1, rows, thread).Ok?
    ensures SameLineage(Finds(e0, rows, thread).value.files, Finds(e1, rows, thread).value.files)
    decreases |steps|
  {
    hide Safe, Finds, SameLineage, CollisionFree;
    if steps == [] {
      OneStep(w, rows, None, e0, e1, thread);
    } else {
      var init := steps[..|steps| - 1];
      var mid := Apply(e0.tree, init);
      var inv := InventoryExists(mid);
      var e := Env(w, mid, inv, e0.limits, e0.snapshot);
      RunNonInterference(w, rows, init, e0, e, thread);
      OneStep(w, rows, Some(steps[|steps| - 1]), e, e1, thread);
      SameLineageTransitive(Finds(e0, rows, thread).value.files, Finds(e, rows, thread).value.files,
                            Finds(e1, rows, thread).value.files);
    }
  }

  lemma OneStep(w: World, rows: Rows, s: Option<Step>, e0: Env, e1: Env, thread: string)
    requires Around(w, rows, s, e0, e1) && ParseID(thread).Some? && Finds(e0, rows, thread).Ok?
    ensures Finds(e1, rows, thread).Ok?
    ensures SameLineage(Finds(e0, rows, thread).value.files, Finds(e1, rows, thread).value.files)
  {
    hide Resolve, Around, SameLineage;
    StepNonInterference(w, rows, s, e0, e1, thread);
  }

  // ---- which steps may be made in which order ----

  /** Making `a` first leaves `b` safe. */
  predicate Compatible(w: World, a: Step, b: Step) {
    a.path != b.path && Listed(a.path) && Listed(b.path) &&
    (b.Install? ==>
       (IdsOf(a.path).rollout == IdsOf(b.path).rollout ==>
          a.Extend? && !PrerequisitePath(b.path) && IdsOf(a.path).thread == IdsOf(b.path).thread &&
          Grows(Visible(w, a.path, a.node), Visible(w, b.path, b.node))) &&
       (a.Install? && !PrerequisitePath(a.path) && !PrerequisitePath(b.path) ==>
          IdsOf(a.path).thread != IdsOf(b.path).thread))
  }

  lemma StaysSafe(w: World, tree: Tree, rows: Rows, a: Step, b: Step)
    requires Safe(w, tree, rows, a) && Safe(w, tree, rows, b) && Compatible(w, a, b)
    ensures Safe(w, ApplyStep(tree, a), rows, b)
  {
    hide Listed, IdsOf, PrerequisitePath, Decoded;
    if b.Install? {
      var after := ApplyStep(tree, a);
      forall q | q in after && Listed(q) && IdsOf(q).rollout == IdsOf(b.path).rollout
        ensures Continued(w, after, b.path, b.node, q)
      {
        if q != a.path {
          assert Continued(w, tree, b.path, b.node, q);
        }
      }
    }
  }

  ghost predicate AllSafe(w: World, tree: Tree, rows: Rows, steps: seq<Step>) {
    forall i | 0 <= i < |steps| :: Safe(w, tree, rows, steps[i])
  }

  ghost predicate InOrder(w: World, steps: seq<Step>) {
    forall i, j | 0 <= i < j < |steps| :: Compatible(w, steps[i], steps[j])
  }

  /** Steps that are safe together and compatible in order stay safe while they are made. */
  lemma {:induction false} RestStaysSafe(w: World, tree: Tree, rows: Rows, steps: seq<Step>, k: nat)
    requires AllSafe(w, tree, rows, steps) && InOrder(w, steps) && k <= |steps|
    ensures AllSafe(w, Apply(tree, steps[..k]), rows, steps[k..])
    ensures SafeRun(w, tree, rows, steps[..k])
  {
    hide Safe, Compatible;
    if k == 0 {
      assert steps[k..] == steps && steps[..k] == [];
    } else {
      RestStaysSafe(w, tree, rows, steps, k - 1);
      var before := Apply(tree, steps[..k - 1]);
      var rest := steps[k - 1..];
      assert rest[0] == steps[k - 1];
      assert steps[..k][..k - 1] == steps[..k - 1];
      assert Apply(tree, steps[..k]) == ApplyStep(before, steps[k - 1]);
      forall j | 0 <= j < |steps[k..]|
        ensures Safe(w, ApplyStep(before, steps[k - 1]), rows, steps[k..][j])
      {
        assert rest[j + 1] == steps[k..][j] == steps[k + j];
        assert Compatible(w, steps[k - 1], steps[k + j]);
        StaysSafe(w, before, rows, steps[k - 1], steps[k + j]);
      }
    }
  }
}
