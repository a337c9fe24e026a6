// publish from end to end: the writer guards around it and the confirmation of the selection behind it.
// internal/session/publish.go and finishPublicationSelection of internal/session/selection_update.go.

module Confirmation {
  import opened Model
  import opened Format
  import opened Inspect
  import opened Lineage
  import opened Conflicts
  import opened Steps
  import opened Comparison
  import opened Planning
  import opened Acceptance
  import opened StateDb
  import opened Locks
  import I = Indexing
  import P = Publisher

  /** The thread's row named a prerequisite of the incoming lineage and now names what was published; no other row has
      changed. */
  predicate Repaired(inc: Incoming, g: I.Goal, before: Table, after: Table)
    requires inc.files != []
  {
    g.thread in before && I.InLineage(inc, SelectionOf(before[g.thread])) &&
    after == before[g.thread := Promoted(before[g.thread], g.mainPath, g.archived, g.modified)]
  }

  /** A publication would be accepted here, whatever the order of the inventory. */
  ghost predicate Acceptable(w: World, limits: Limits, inc: Incoming, tree: Tree, sel: Option<Selection>)
    requires 1 <= |inc.files| == |inc.payload|
  {
    var t := Target(w, limits, tree, [], sel);
    (sel.Some? ==> RowStands(t, inc, sel.value)) && NoRival(t, inc) && StoredWorkable(t, inc)
  }

  lemma AcceptableChecks(t: Target, inc: Incoming)
    requires CollisionFree(t.w) && ValidIncoming(t.w, t.limits, inc) && 1 <= |inc.files| == |inc.payload|
    requires InventoryOf(t.tree, t.inv)
    ensures Check(t, inc).Ok? <==> Acceptable(t.w, t.limits, inc, t.tree, t.sel)
    ensures Check(t, inc).Ok? ==>
              |Check(t, inc).value| == |inc.files| &&
              P.Repair(Check(t, inc).value) == if t.sel.Some? && PrerequisitePath(t.sel.value.path) then t.sel else None
  {
    hide ValidIncoming, CollisionFree, Check, InventoryOf, ParseName, ValidRelative, Workable;
    AcceptedExactly(t, inc);
    var t0 := Target(t.w, t.limits, t.tree, [], t.sel);
    SameWork(t, t0, inc);
  }

  /** What can be worked with does not depend on the inventory. */
  lemma SameWork(t: Target, t0: Target, inc: Incoming)
    requires t0 == t.(inv := []) && 1 <= |inc.files| == |inc.payload|
    ensures StoredWorkable(t, inc) <==> StoredWorkable(t0, inc)
  {
    hide ParseName, ManagedPath, Sufficient, Continuable;
    forall i, c: Candidate | 0 <= i < |inc.files|
      ensures Stored(t, inc, c) <==> Stored(t0, inc, c)
      ensures Workable(t, inc, i, c) <==> Workable(t0, inc, i, c)
    {
    }
  }

  /** The database takes a promotion: qualified, completely indexed, and its file stays the one at its path. */
  predicate Ready(db: Database)
    reads db
  {
    db.migrated && db.known && db.status == Complete
  }

  /** finishPublicationSelection: await a look that decides; a prerequisite found selected is verified by a second check
      of the destination before its row is promoted. `looks` is what the database shows while publish waits. */
  method FinishPublicationSelection(home: P.Storage, db: Database, w: World, limits: Limits, inc: Incoming, g: I.Goal,
                                    looks: seq<I.Observation>, o: P.Outside, commit: Commit)
    returns (r: Result<bool>)
    requires ValidIncoming(w, limits, inc) && inc.files != [] && !db.reserved && g.thread == inc.thread
    modifies db
    ensures !db.reserved && db.status == old(db.status)
    ensures db.rows == old(db.rows) || Repaired(inc, g, old(db.rows), db.rows)
    ensures r.Ok? && !r.value ==> db.rows == old(db.rows) && exists look | look in looks :: I.Decide(g, look).Agreed?
    ensures r.Ok? && r.value ==> Repaired(inc, g, old(db.rows), db.rows) && exists look | look in looks ::
              I.Decide(g, look) == I.Repair(SelectionOf(old(db.rows)[g.thread]))
    ensures r == Ok(false) <==> I.LooksContent(g, looks)
    ensures (forall look | look in looks :: I.Unsettled(look)) ==> r == Err(Busy)
    ensures forall selected |
              I.LooksPrerequisite(looks, selected) && Selected(old(db.rows), inc.thread) == Some(selected) &&
              CollisionFree(w) && |inc.files| == |inc.payload| && Ready(db) && o.same(3) && o.same(4) && o.same(5) &&
              Acceptable(w, limits, inc, home.tree, Some(selected)) ::
              r.Ok? <==> commit == Confirmed
  {
    hide ValidIncoming, Check, I.InLineage, InventoryOf, I.NamesComplete, CollisionFree, Acceptable, I.Unsettled;
    hide I.LooksContent, I.LooksPrerequisite, I.Decide, PrerequisitePath;
    P.NotEmpty(w, limits, inc);
    var verdict := I.Await(g, looks);
    if verdict.None? {
      return Err(Busy);
    }
    match verdict.value {
      case Agreed =>
        return Ok(false);
      case Repair(selected) =>
        var inv := home.Inventory();
        ghost var t := Target(w, limits, home.tree, inv, Selected(db.rows, inc.thread));
        LooksOne(looks, selected);
        if CollisionFree(w) {
          AcceptableChecks(t, inc);
        }
        var choices := CheckConflicts(Target(w, limits, home.tree, inv, Selected(db.rows, inc.thread)), inc);
        if choices.Err? {
          return Err(choices.error);
        }
        P.RepairPaginated(t, inc);
        var repair := choices.value[|choices.value| - 1].repair;
        if repair != Some(selected) {
          return Err(Conflict);
        }
        I.ConfirmsInLineage(t, inc, selected);
        var begun := db.BeginSelectionUpdate(inc.thread, selected, o.same(3));
        if begun.Err? {
          return Err(begun.error);
        }
        var finished :=
          db.Finish(inc.thread, selected, g.mainPath, g.archived, g.modified, o.same(4), o.same(5), commit);
        if finished.Err? {
          return Err(finished.error);
        }
        return Ok(true);
      case _ =>
        return Err(Conflict);
    }
  }

  /** The waiting ends at one look only. */
  lemma LooksOne(looks: seq<I.Observation>, selected: Selection)
    requires I.LooksPrerequisite(looks, selected)
    ensures PrerequisitePath(selected.path) && forall s | I.LooksPrerequisite(looks, s) :: s == selected
  {
    hide I.Unsettled;
    var i :| 0 <= i < |looks| && I.EndsAtLook(looks, i) && I.ShowsPrerequisite(looks[i], selected);
    forall s | I.LooksPrerequisite(looks, s)
      ensures s == selected
    {
      var j :| 0 <= j < |looks| && I.EndsAtLook(looks, j) && I.ShowsPrerequisite(looks[j], s);
    }
  }

  /** What the check chose for the complete conversation. */
  function ChosenGoal(t: Target, inc: Incoming): I.Goal
    requires 1 <= |inc.files| == |inc.payload| && Check(t, inc).Ok? && |Check(t, inc).value| == |inc.files|
  {
    I.GoalOf(inc, Check(t, inc).value[|inc.files| - 1].path)
  }

  /** The complete conversation is never reported under a prerequisite path. */
  lemma GoalOrdinary(t: Target, inc: Incoming)
    requires ValidIncoming(t.w, t.limits, inc) && 1 <= |inc.files| == |inc.payload| && Check(t, inc).Ok?
    ensures |Check(t, inc).value| == |inc.files| && !PrerequisitePath(ChosenGoal(t, inc).mainPath)
  {
    hide ValidIncoming, AdmitSelection, Unrivalled, AllFit, AllOf, WeighAll, ChooseFrom, Extensions, PrerequisitePath;
    hide Describes, ParseName, ManagedPath, HasSuffix;
    CheckAccepts(t, inc);
    var a, n := AdmitSelection(t, inc).value, |inc.files| - 1;
    ChooseFromFacts(t, inc, a, 0);
    var ch := FreshChoice(inc, n, a.repair);
    WeighAllFacts(t, inc, n, ch, a.inv);
    ChosenPath(t, inc, n, ch, a.inv);
    PrefixUnlessLast(t.w, t.limits, inc, n);
    ValidAt(t.w, t.limits, inc, n);
  }

  lemma PromotedIsRepaired(t: Target, inc: Incoming, before: Table, after: Table)
    requires 1 <= |inc.files| == |inc.payload| && Check(t, inc).Ok? && |Check(t, inc).value| == |inc.files|
    requires P.RowPromoted(inc, Check(t, inc).value, before, after)
    ensures Repaired(inc, ChosenGoal(t, inc), before, after) && P.Repair(Check(t, inc).value).Some?
  {
    hide Check, I.InLineage;
    I.ConfirmsInLineage(t, inc, P.Repair(Check(t, inc).value).value);
  }

  /** A row that names what was published is not repaired again. */
  lemma RepairedOnce(inc: Incoming, g: I.Goal, before: Table, mid: Table, after: Table)
    requires inc.files != [] && !PrerequisitePath(g.mainPath)
    requires mid == before || Repaired(inc, g, before, mid)
    requires after == mid || Repaired(inc, g, mid, after)
    ensures after == before || Repaired(inc, g, before, after)
    ensures after != mid ==> mid == before
  {
    hide PrerequisitePath, ParseName;
  }

  /** What a publication leaves behind, with its locks held. */
  ghost predicate Published(w: World, limits: Limits, inc: Incoming, before: Tree, after: Tree, rows: Table,
                            rows1: Table, r: Result<P.Report>, made: nat, t: Target, stage: Stage) {
    1 <= |inc.files| == |inc.payload| && t == Target(w, limits, before, t.inv, Selected(rows, inc.thread)) &&
    InventoryOf(t.tree, t.inv) && (Check(t, inc).Ok? ==> |Check(t, inc).value| == |inc.files|) &&
    (if made == 0 && r.Err? then after == before
     else Check(t, inc).Ok? && P.Changed(w, inc, Check(t, inc).value, stage, before, after, made)) &&
    (r.Ok? ==> P.Finished(w, inc, Check(t, inc).value, stage, made) &&
               r.value == P.ReportOf(inc, Check(t, inc).value).(repaired := rows1 != rows)) &&
    (rows1 != rows ==> Check(t, inc).Ok? && P.Finished(w, inc, Check(t, inc).value, stage, made) &&
                       Repaired(inc, ChosenGoal(t, inc), rows, rows1))
  }

  /** A promoted row is a different row. */
  lemma RepairedDiffers(inc: Incoming, g: I.Goal, before: Table, after: Table)
    requires inc.files != [] && !PrerequisitePath(g.mainPath) && Repaired(inc, g, before, after)
    ensures after != before
  {
    hide PrerequisitePath, ParseName;
    assert after[g.thread].path == g.mainPath;
  }

  lemma OnlyThisThread(inc: Incoming, g: I.Goal, before: Table, after: Table, id: string)
    requires inc.files != [] && Repaired(inc, g, before, after) && id != g.thread
    ensures Selected(after, id) == Selected(before, id)
  {
    hide I.InLineage;
  }

  /** The confirmation, where publish makes one, meets a database that agrees. */
  ghost predicate Confirmable(t: Target, inc: Incoming, looks: seq<I.Observation>) {
    1 <= |inc.files| == |inc.payload| && Check(t, inc).Ok? && |Check(t, inc).value| == |inc.files| &&
    (|inc.files| > 1 || Check(t, inc).value[|inc.files| - 1].promoted) ==>
      I.LooksContent(ChosenGoal(t, inc), looks)
  }

  /** Nothing outside publish is in its way, before or after. */
  ghost predicate Smooth(w: World, limits: Limits, inc: Incoming, tree: Tree, rows: Table, ready: bool, o: P.Outside,
                         t: Target, looks: seq<I.Observation>) {
    1 <= |inc.files| == |inc.payload| && CollisionFree(w) && Lossless(w) && P.Undisturbed(o) &&
    Acceptable(w, limits, inc, tree, Selected(rows, inc.thread)) && Confirmable(t, inc, looks) &&
    (inc.thread in rows && PrerequisitePath(rows[inc.thread].path) ==> ready)
  }

  /** publish between taking its locks and releasing them. */
  method PublishConfirmed(home: P.Storage, staging: P.Staging, db: Database, w: World, limits: Limits, inc: Incoming,
                          o: P.Outside, looks: seq<I.Observation>, commit: Commit)
    returns (r: Result<P.Report>, made: nat, ghost t: Target, ghost stage: Stage)
    requires ValidIncoming(w, limits, inc) && inc.files != [] && staging.Holds(inc) && !db.reserved
    modifies home, staging, db
    ensures !db.reserved
    ensures Published(w, limits, inc, old(home.tree), home.tree, old(db.rows), db.rows, r, made, t, stage)
    ensures r.Ok? && (|inc.files| > 1 || Check(t, inc).value[|inc.files| - 1].promoted) ==>
              exists look | look in looks :: Decisive(ChosenGoal(t, inc), look)
    ensures Smooth(w, limits, inc, old(home.tree), old(db.rows), old(Ready(db)), o, t, looks) ==> r.Ok?
    ensures CollisionFree(w) && |inc.files| == |inc.payload| &&
            !Acceptable(w, limits, inc, old(home.tree), Selected(old(db.rows), inc.thread)) ==>
              r.Err? && home.tree == old(home.tree) && db.rows == old(db.rows)
  {
    hide ValidIncoming, Check, InventoryOf, Repaired, P.Changed, P.Finished, P.RowPromoted, P.InstalledFiles;
    hide PrerequisitePath, Acceptable, CollisionFree, Lossless, P.Undisturbed, I.LooksContent, I.LooksPrerequisite;
    hide I.Unsettled;
    var installed, extended, confirms;
    r, installed, extended, made, confirms, t, stage := P.PublishLocked(home, staging, db, w, limits, inc, o);
    ghost var mid := db.rows;
    if CollisionFree(w) {
      AcceptableChecks(t, inc);
    }
    if Check(t, inc).Ok? {
      GoalOrdinary(t, inc);
      P.ReportRepaired(inc, Check(t, inc).value);
      if P.RowPromoted(inc, Check(t, inc).value, old(db.rows), mid) {
        PromotedIsRepaired(t, inc, old(db.rows), mid);
        RepairedDiffers(inc, ChosenGoal(t, inc), old(db.rows), mid);
      }
    }
    if r.Ok? && confirms {
      var g := I.GoalOf(inc, r.value.mainPath);
      var finished := FinishPublicationSelection(home, db, w, limits, inc, g, looks, o, commit);
      RepairedOnce(inc, g, old(db.rows), mid, db.rows);
      P.Unmade(w, inc, Check(t, inc).value, stage, old(home.tree), home.tree, made);
      if finished.Err? {
        return Err(finished.error), made, t, stage;
      }
      if finished.value {
        RepairedDiffers(inc, g, mid, db.rows);
      }
      r := Ok(r.value.(repaired := r.value.repaired || finished.value));
    }
  }

  /** A look that ends the waiting without a conflict. */
  predicate Decisive(g: I.Goal, look: I.Observation) {
    I.Decide(g, look).Agreed? || I.Decide(g, look).Repair?
  }

  function PlanIds(files: seq<File>): (r: seq<string>)
    ensures forall f | f in files :: f.thread in r && f.rollout in r
  {
    if files == [] then [] else PlanIds(files[..|files| - 1]) + [files[|files| - 1].thread, files[|files| - 1].rollout]
  }

  /** Nobody holds a lock publish needs. */
  predicate LocksFree(holders: map<string, nat>, inc: Incoming) {
    COORDINATION !in holders && Available(holders, Elements(PlanIds(inc.files)))
  }

  method IdsOfFiles(files: seq<File>) returns (ids: seq<string>)
    ensures ids == PlanIds(files)
  {
    ids := [];
    for i := 0 to |files|
      invariant ids == PlanIds(files[..i])
    {
      assert files[..i + 1][..i] == files[..i];
      ids := ids + [files[i].thread, files[i].rollout];
    }
    assert files[..|files|] == files;
  }

  lemma NeedsLocks(holders: map<string, nat>, inc: Incoming)
    requires inc.files != []
    ensures Missing(PlanIds(inc.files), {}) == Elements(PlanIds(inc.files)) && Elements(PlanIds(inc.files)) != {}
  {
    assert inc.files[0] in inc.files;
    assert inc.files[0].thread in Elements(PlanIds(inc.files));
  }

  /** Publish: all writer locks of the lineage are taken, the destination is changed and the selection confirmed under
      them, and they are released however it ends. Without the locks nothing is changed. */
  method Publish(home: P.Storage, staging: P.Staging, db: Database, table: LockTable, owner: nat, w: World,
                 limits: Limits, inc: Incoming, o: P.Outside, looks: seq<I.Observation>, commit: Commit)
    returns (r: Result<P.Report>, made: nat, ghost t: Target, ghost stage: Stage)
    requires ValidIncoming(w, limits, inc) && inc.files != [] && staging.Holds(inc) && !db.reserved
    modifies home, staging, db, table
    ensures table.holders == old(table.holders) && !db.reserved
    ensures !LocksFree(old(table.holders), inc) ==> r.Err? && home.tree == old(home.tree) && db.rows == old(db.rows)
    ensures LocksFree(old(table.holders), inc) ==>
              Published(w, limits, inc, old(home.tree), home.tree, old(db.rows), db.rows, r, made, t, stage)
    ensures r.Ok? && (|inc.files| > 1 || Check(t, inc).value[|inc.files| - 1].promoted) ==>
              exists look | look in looks :: Decisive(ChosenGoal(t, inc), look)
    ensures forall id | id != inc.thread :: Selected(db.rows, id) == Selected(old(db.rows), id)
    ensures (LocksFree(old(table.holders), inc) &&
             Smooth(w, limits, inc, old(home.tree), old(db.rows), old(Ready(db)), o, t, looks)) ==> r.Ok?
    ensures CollisionFree(w) && |inc.files| == |inc.payload| &&
            !Acceptable(w, limits, inc, old(home.tree), Selected(old(db.rows), inc.thread)) ==>
              r.Err? && home.tree == old(home.tree) && db.rows == old(db.rows)
  {
    hide ValidIncoming, Check, InventoryOf, Repaired, P.Changed, P.Finished, Available, With, Paths, Decisive, Smooth;
    hide Acceptable, CollisionFree;
    var ids := IdsOfFiles(inc.files);
    var guards := new WriterGuards(table, owner);
    var locked := guards.Acquire(ids);
    NeedsLocks(old(table.holders), inc);
    assert guards.files - {} == guards.files;
    Released(old(table.holders), guards.files, owner);
    made, t, stage := 0, Target(w, limits, home.tree, [], None), Stage([], []);
    if locked.Err? {
      guards.Close();
      return Err(locked.error), made, t, stage;
    }
    r, made, t, stage := PublishConfirmed(home, staging, db, w, limits, inc, o, looks, commit);
    forall id | id != inc.thread
      ensures Selected(db.rows, id) == Selected(old(db.rows), id)
    {
      if db.rows != old(db.rows) {
        OnlyThisThread(inc, ChosenGoal(t, inc), old(db.rows), db.rows, id);
      }
    }
    guards.Close();
  }
}
