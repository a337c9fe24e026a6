// Publishers at one home through crashes of the machine: internal/session/publish.go under the writer locks of
// internal/session/locks.go, over storage whose changes a crash may undo.

module Eras {
  import opened Model
  import opened Format
  import opened Rollout
  import opened Inspect
  import opened Lineage
  import opened Steps
  import opened NonInterference
  import opened Schedule
  import opened Disks
  import opened Crashes
  import opened Concurrency

  // ---- one crash ----

  /** The steps of a run, each with the rows of its time. */
  lemma {:induction false} RunChanges(w: World, tr: seq<System>, n: nat) returns (cs: seq<Change>)
    requires Run(w, tr) && n < |tr|
    ensures SafeChanges(w, tr[0].tree, cs) && TreeOf(tr[0].tree, cs) == tr[n].tree
    ensures forall k, p | 0 <= k <= n :: HadVersion(tr[0].tree, cs, p, Version(tr[k].tree, p))
    ensures forall c | c in cs :: exists k :: 0 <= k < n && c.rows == tr[k].rows
  {
    hide Next, Inv, Safe, HadVersion, Version;
    var tree := tr[0].tree;
    if n == 0 {
      cs := [];
      forall p
        ensures HadVersion(tree, cs, p, Version(tree, p))
      {
        VersionNow(tree, cs, p);
      }
    } else {
      var before := RunChanges(w, tr, n - 1);
      assert Happens(w, tr[n - 1], tr[n - 1 + 1]);
      var j, event :| Next(w, tr[n - 1], tr[n], j, event);
      RunInv(w, tr, n - 1);
      var step := EventAround(w, tr[n - 1], tr[n], j, event);
      hide Run, SafeChanges, TreeOf;
      if step.Some? {
        var c := Change(step.value, tr[n - 1].rows);
        cs := before + [c];
        OneChange(w, tree, before, c);
        forall k, p | 0 <= k <= n
          ensures HadVersion(tree, cs, p, Version(tr[k].tree, p))
        {
          VersionNow(tree, cs, p);
          VersionOnce(tree, before, c, p, Version(tr[k].tree, p));
        }
      } else {
        cs := before;
      }
    }
  }

  /** The row of a thread that resolves is nobody's to change. */
  lemma {:induction false} RowStays(w: World, tr: seq<System>, n: nat, thread: string)
    requires Run(w, tr) && n < |tr| && !(thread in tr[0].rows && PrerequisitePath(tr[0].rows[thread].path))
    ensures RowOf(tr[n].rows, thread) == RowOf(tr[0].rows, thread)
  {
    hide Next, Inv, Safe, PrerequisitePath;
    if n > 0 {
      RowStays(w, tr, n - 1, thread);
      assert Happens(w, tr[n - 1], tr[n - 1 + 1]);
      var j, event :| Next(w, tr[n - 1], tr[n], j, event);
      RunInv(w, tr, n - 1);
      var _ := EventAround(w, tr[n - 1], tr[n], j, event);
    }
  }

  /** What the machine may find when it comes up again after a run: each file as it was at some moment, each row as it
      was at some moment. */
  ghost predicate ComesUp(tr: seq<System>, tree: Tree, rows: Rows) {
    (forall p :: exists k :: 0 <= k < |tr| && Version(tree, p) == Version(tr[k].tree, p)) &&
    forall id :: exists k :: 0 <= k < |tr| && RowOf(rows, id) == RowOf(tr[k].rows, id)
  }

  lemma CrashChanges(w: World, tr: seq<System>, tree: Tree, rows: Rows) returns (cs: seq<Change>)
    requires Run(w, tr) && ComesUp(tr, tree, rows)
    ensures SafeChanges(w, tr[0].tree, cs) && TreeOf(tr[0].tree, cs) == tree
    ensures forall c | c in cs :: exists k :: 0 <= k < |tr| && c.rows == tr[k].rows
  {
    hide Happens, SafeChanges, TreeOf, HadVersion, Version, RowOf;
    var all := RunChanges(w, tr, |tr| - 1);
    assert Mixed(tr[0].tree, all, tree);
    cs := Rebuilt(w, tr[0].tree, all, tree);
  }

  lemma CrashAppends(w: World, tr: seq<System>, tree: Tree, rows: Rows)
    requires Run(w, tr) && ComesUp(tr, tree, rows)
    ensures AppendOnly(w, tr[0].tree, tree)
  {
    hide ComesUp, Happens, SafeChanges, AppendOnly;
    var cs := CrashChanges(w, tr, tree, rows);
    ChangesAppend(w, tr[0].tree, cs, 0);
    assert cs[..0] == [];
  }

  lemma CrashNonInterference(w: World, tr: seq<System>, rows: Rows, e0: Env, e1: Env, thread: string)
    requires Run(w, tr) && ComesUp(tr, e1.tree, rows) && CollisionFree(w) && e0.w == w == e1.w && e0.limits.Valid()
    requires e1.limits == e0.limits && e1.snapshot == e0.snapshot && e0.tree == tr[0].tree
    requires InventoryOf(e0.tree, e0.inv) && InventoryOf(e1.tree, e1.inv)
    requires ParseID(thread).Some? && Finds(e0, tr[0].rows, thread).Ok?
    ensures Finds(e1, rows, thread).Ok?
    ensures SameLineage(Finds(e0, tr[0].rows, thread).value.files, Finds(e1, rows, thread).value.files)
  {
    hide Happens, SafeChanges, TreeOf, Resolve, SameLineage, CollisionFree, InventoryOf, RowOf, Version;
    var id := ParseID(thread).value;
    ResolvedRow(e0, tr[0].rows, thread);
    forall k | 0 <= k < |tr|
      ensures RowOf(tr[k].rows, id) == RowOf(tr[0].rows, id)
    {
      RowStays(w, tr, k, id);
    }
    var cs := CrashChanges(w, tr, e1.tree, rows);
    ChangesNonInterference(w, cs, RowOf(tr[0].rows, id), e0, e1, thread);
  }

  // ---- any number of them ----

  /** Runs one after another, each from what the machine found after the crash that ended the one before. */
  ghost predicate InTurn(w: World, eras: seq<seq<System>>) {
    (forall i | 0 <= i < |eras| :: Run(w, eras[i])) &&
    forall i | 0 < i < |eras| :: ComesUp(eras[i - 1], eras[i][0].tree, eras[i][0].rows)
  }

  /** Append-only storage over any number of machine crashes, each at any moment of any interleaving of publishers. */
  lemma {:induction false} AppendsForGood(w: World, eras: seq<seq<System>>, i: nat, n: nat)
    requires InTurn(w, eras) && i < |eras| && n < |eras[i]|
    ensures AppendOnly(w, eras[0][0].tree, eras[i][n].tree)
  {
    hide Happens, AppendOnly, ComesUp;
    ConcurrentAppends(w, eras[i], n);
    if i > 0 {
      var first := eras[0][0].tree;
      AppendsForGood(w, eras, i - 1, 0);
      CrashAppends(w, eras[i - 1], eras[i][0].tree, eras[i][0].rows);
      AppendsCompose(w, first, eras[i - 1][0].tree, eras[i][0].tree);
      AppendsCompose(w, first, eras[i][0].tree, eras[i][n].tree);
    }
  }

  /** Non-interference likewise: whoever publishes, dies or is cut off by a crash of the machine, each thread that
      resolved at the start resolves to the same rollouts, sizes and digests ever after. */
  lemma {:induction false} ResolvesForGood(w: World, eras: seq<seq<System>>, i: nat, n: nat, e0: Env, e1: Env,
                                           thread: string)
    requires InTurn(w, eras) && i < |eras| && n < |eras[i]| && CollisionFree(w) && e0.limits.Valid()
    requires e0.w == w == e1.w && e1.limits == e0.limits && e1.snapshot == e0.snapshot
    requires e0.tree == eras[0][0].tree && e1.tree == eras[i][n].tree
    requires InventoryOf(e0.tree, e0.inv) && InventoryOf(e1.tree, e1.inv)
    requires ParseID(thread).Some? && Finds(e0, eras[0][0].rows, thread).Ok?
    ensures Finds(e1, eras[i][n].rows, thread).Ok?
    ensures SameLineage(Finds(e0, eras[0][0].rows, thread).value.files,
                        Finds(e1, eras[i][n].rows, thread).value.files)
  {
    hide Happens, ComesUp, Finds, SameLineage, CollisionFree, InventoryOf;
    if i == 0 {
      ConcurrentNonInterference(w, eras[0], n, e0, e1, thread);
    } else {
      var last, now := eras[i - 1], eras[i];
      var inv0 := InventoryExists(last[0].tree);
      var inv1 := InventoryExists(now[0].tree);
      var a, b := e0.(tree := last[0].tree, inv := inv0), e0.(tree := now[0].tree, inv := inv1);
      ResolvesForGood(w, eras, i - 1, 0, e0, a, thread);
      CrashNonInterference(w, last, now[0].rows, a, b, thread);
      ConcurrentNonInterference(w, now, n, b, e1, thread);
      var f0, fa := Finds(e0, eras[0][0].rows, thread).value.files, Finds(a, last[0].rows, thread).value.files;
      var fb := Finds(b, now[0].rows, thread).value.files;
      SameLineageTransitive(f0, fa, fb);
      SameLineageTransitive(f0, fb, Finds(e1, now[n].rows, thread).value.files);
    }
  }
}
