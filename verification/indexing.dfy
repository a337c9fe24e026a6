// A publication beside the native indexer: the selected row from the first check to its confirmation.
// publish of internal/session/publish.go; finishPublicationSelection, publicationSelection and
// awaitPublicationSelection of internal/session/selection_update.go.

module Indexing {
  import opened Model
  import opened Format
  import opened Rollout
  import opened Inspect
  import opened Lineage
  import opened Conflicts
  import opened Steps
  import opened Comparison
  import opened Planning
  import opened StateDb

  /** What a publication reports of the complete conversation. */
  datatype Goal = Goal(thread: string, mainPath: string, mode: string, archived: bool, modified: int)

  /** A checked publication as far as the row is concerned: what it reports and repairs, whether publish confirms the
      selection at all, and the destination after each number of its steps. */
  datatype Publishing = Publishing(t: Target, inc: Incoming, goal: Goal, repair: Option<Selection>, confirms: bool,
    trees: seq<Tree>)

  predicate Checked(t: Target, inc: Incoming, stage: Stage) {
    1 <= |inc.files| == |inc.payload| && Check(t, inc).Ok? && StageFor(t.w, inc, Check(t, inc).value, stage)
  }

  /** The destination before the first step, after it, and so on. */
  function Trees(tree: Tree, steps: seq<Step>): (r: seq<Tree>)
    ensures |r| == |steps| + 1 && forall k | 0 <= k <= |steps| :: r[k] == Apply(tree, steps[..k])
  {
    seq(|steps| + 1, k requires 0 <= k <= |steps| => Apply(tree, steps[..k]))
  }

  function GoalOf(inc: Incoming, path: string): Goal
    requires inc.files != []
  {
    Goal(inc.thread, path, Main(inc).meta.mode, HasPrefix(path, "archived_sessions/"), Main(inc).modified)
  }

  /** publish confirms only after several files or a promotion. */
  function PublishingOf(t: Target, inc: Incoming, stage: Stage): Publishing
    requires Checked(t, inc, stage)
  {
    var choices := Check(t, inc).value;
    var last := choices[|choices| - 1];
    Publishing(t, inc, GoalOf(inc, last.path), last.repair, |inc.files| > 1 || last.promoted,
               Trees(t.tree, StepsOf(t.w, inc, choices, stage)))
  }

  /** A row that names the complete main rollout as published. */
  predicate NamesComplete(g: Goal, sel: Selection) {
    !PrerequisitePath(sel.path) && TrimSuffix(sel.path, ".zst") == TrimSuffix(g.mainPath, ".zst") &&
    sel.mode == g.mode && sel.archived == g.archived
  }

  // ---- what one look at the database decides ----

  /** One read transaction: how far indexing is (none without a database) and the thread's row. */
  datatype Observation = Observation(status: Option<Status>, row: Option<Selection>)

  datatype Verdict = Wait | Agreed | Conflicting | Repair(selected: Selection)

  function Decide(g: Goal, o: Observation): Verdict {
    if o.status.None? then Agreed
    else if o.status.value == Running then Wait
    else if o.row.None? then Agreed
    else if PrerequisitePath(o.row.value.path) then (if o.status.value == Pending then Wait else Repair(o.row.value))
    else if NamesComplete(g, o.row.value) then Agreed
    else Conflicting
  }

  /** Indexing runs, or has not begun and would still find the prerequisite its row names replaced. */
  predicate Unsettled(o: Observation) {
    o.status == Some(Running) ||
    (o.status == Some(Pending) && o.row.Some? && HasPrefix(o.row.value.path, "archived_sessions/.hcorral-history/"))
  }

  /** There is no database, or no row, or the row names what was published: path up to compression, mode and archive
      flag. */
  predicate Content(g: Goal, o: Observation) {
    o.status.None? ||
    (o.status != Some(Running) &&
     (o.row.None? ||
      (!HasPrefix(o.row.value.path, "archived_sessions/.hcorral-history/") && o.row.value.mode == g.mode &&
       TrimSuffix(o.row.value.path, ".zst") == TrimSuffix(g.mainPath, ".zst") && o.row.value.archived == g.archived)))
  }

  /** Indexing is complete and the row names a prerequisite. */
  predicate ShowsPrerequisite(o: Observation, selected: Selection) {
    o.status == Some(Complete) && o.row == Some(selected) &&
    HasPrefix(selected.path, "archived_sessions/.hcorral-history/")
  }

  /** The first look at which the waiting ends. */
  predicate EndsAtLook(looks: seq<Observation>, i: nat) {
    i < |looks| && !Unsettled(looks[i]) && forall k | 0 <= k < i :: Unsettled(looks[k])
  }

  ghost predicate LooksContent(g: Goal, looks: seq<Observation>) {
    exists i :: 0 <= i < |looks| && EndsAtLook(looks, i) && Content(g, looks[i])
  }

  ghost predicate LooksPrerequisite(looks: seq<Observation>, selected: Selection) {
    exists i :: 0 <= i < |looks| && EndsAtLook(looks, i) && ShowsPrerequisite(looks[i], selected)
  }

  /** What a look decides, exactly. */
  lemma DecideExactly(g: Goal, o: Observation)
    ensures Decide(g, o).Wait? <==> Unsettled(o)
    ensures Decide(g, o).Agreed? <==> Content(g, o)
    ensures forall selected :: Decide(g, o) == Repair(selected) <==> ShowsPrerequisite(o, selected)
  {
  }

  /** awaitPublicationSelection: look again until a look decides, or the observations (the time) run out. */
  method Await(g: Goal, looks: seq<Observation>) returns (r: Option<Verdict>)
    ensures r.None? <==> forall o | o in looks :: Unsettled(o)
    ensures r == Some(Agreed) <==> LooksContent(g, looks)
    ensures forall selected :: r == Some(Repair(selected)) <==> LooksPrerequisite(looks, selected)
    ensures r.Some? ==> !r.value.Wait? && exists i | 0 <= i < |looks| ::
              Decide(g, looks[i]) == r.value && forall k | 0 <= k < i :: Decide(g, looks[k]).Wait?
  {
    hide Decide, Unsettled, Content, ShowsPrerequisite;
    for i := 0 to |looks|
      invariant forall k | 0 <= k < i :: Decide(g, looks[k]).Wait? && Unsettled(looks[k])
    {
      var v := Decide(g, looks[i]);
      DecideExactly(g, looks[i]);
      if !v.Wait? {
        assert EndsAtLook(looks, i);
        return Some(v);
      }
    }
    return None;
  }

  // ---- the system ----

  /** A running backfill: whether it began after every file of the publication was durable, and the files of the thread
      it has collected so far. */
  datatype Backfill = NoBackfill | Backfilling(late: bool, seen: map<string, Node>)

  /** Where the publication is: its check has passed, its files are being installed, the selection is being confirmed,
      a prerequisite was found selected, that row has been verified by a second check, or publish has returned. */
  datatype Progress =
    | Accepting
    | Installing
    | Confirming
    | Repairing(selected: Selection)
    | Verified(selected: Selection)
    | Succeeded
    | Failed

  /** `made` steps of the publication are durable; `reserved`: publish holds the database's write reservation. */
  datatype System = System(status: Option<Status>, rows: Table, scan: Backfill, made: nat, reserved: bool,
    progress: Progress)

  function RowNow(p: Publishing, s: System): Option<Selection> {
    Selected(s.rows, p.goal.thread)
  }

  predicate Installed(p: Publishing, s: System) {
    s.made + 1 == |p.trees|
  }

  datatype Event =
    | CreateDatabase
    | BeginScan                 // commits `running` before it collects any path
    | RestartScan               // a scan that died is taken up again and collects anew
    | Collect(path: string)
    | Upsert(id: string, row: Row)
    | FinishScan
    | OtherWriter(id: string, row: Row)
    | Begin                     // publish goes on from its check, reserving the row it has to repair
    | Make                      // the next step is made and synced
    | Finish(commit: Commit)    // every step is made; a reserved row is promoted
    | Look
    | Verify(inv: seq<Candidate>)
    | Promote(commit: Commit)
    | GiveUp

  /** The row a scan writes for a file it has read: the mode the file has, and archived by its place. */
  predicate Recorded(p: Publishing, row: Row, node: Node) {
    Listed(row.path) && row.archived == HasPrefix(row.path, "archived_sessions/") &&
    var r := Read(p.t.w, node, IdsOf(row.path), None, p.t.limits, false);
    r.Ok? ==> row.mode == r.value.meta.mode
  }

  /** What a scan may write for the thread: a file it has collected, and the complete conversation once that was there
      when the scan began. */
  predicate MayRecord(p: Publishing, scan: Backfill, row: Row) {
    scan.Backfilling? && row.path in scan.seen && Recorded(p, row, scan.seen[row.path]) &&
    (scan.late ==> NamesComplete(p.goal, SelectionOf(row)))
  }

  predicate Collects(p: Publishing, s: System, s1: System, path: string) {
    s.scan.Backfilling? && s.made < |p.trees| && path in p.trees[s.made] && Listed(path) &&
    IdsOf(path).thread == p.goal.thread &&
    s1 == s.(scan := s.scan.(seen := s.scan.seen[path := p.trees[s.made][path]]))
  }

  ghost predicate Next(p: Publishing, s: System, s1: System, e: Event) {
    match e
    case CreateDatabase => s.status.None? && s1 == s.(status := Some(Pending), rows := map[])
    case BeginScan =>
      !s.reserved && s.status == Some(Pending) &&
      s1 == s.(status := Some(Running), scan := Backfilling(Installed(p, s), map[]))
    case RestartScan =>
      s.status == Some(Running) && s.scan.Backfilling? && s1 == s.(scan := Backfilling(Installed(p, s), map[]))
    case Collect(path) => Collects(p, s, s1, path)
    case Upsert(id, row) =>
      s.status == Some(Running) && s.scan.Backfilling? && (id == p.goal.thread ==> MayRecord(p, s.scan, row)) &&
      s1 == s.(rows := s.rows[id := row])
    case FinishScan => s.status == Some(Running) && s1 == s.(status := Some(Complete), scan := NoBackfill)
    case OtherWriter(id, row) =>
      !s.reserved && s.status.Some? && id != p.goal.thread && s1 == s.(rows := s.rows[id := row])
    case Begin => s.progress.Accepting? && Begins(p, s, s1)
    case Make => s.progress.Installing? && s.made + 1 < |p.trees| && s1 == s.(made := s.made + 1)
    case Finish(commit) => s.progress.Installing? && Installed(p, s) && Finishes(p, s, s1, commit)
    case Look =>
      s.progress.Confirming? &&
      (match Decide(p.goal, Observation(s.status, RowNow(p, s)))
       case Wait => s1 == s
       case Agreed => s1 == s.(progress := Succeeded)
       case Conflicting => s1 == s.(progress := Failed)
       case Repair(selected) => s1 == s.(progress := Repairing(selected)))
    case Verify(inv) => s.progress.Repairing? && Verifies(p, s, s1, s.progress.selected, inv)
    case Promote(commit) =>
      s.progress.Verified? &&
      if CanBegin(p, s, s.progress.selected) then Promotes(p, s, s1, s.progress.selected, Succeeded, commit)
      else s1 == s.(progress := Failed)
    case GiveUp => !s.progress.Succeeded? && s1 == s.(progress := Failed, reserved := false)
  }

  /** beginSelectionUpdate succeeds. */
  predicate CanBegin(p: Publishing, s: System, selected: Selection) {
    s.status == Some(Complete) && Matches(s.rows, p.goal.thread, selected) && selected.mode == "paginated"
  }

  /** The row the check found to be repaired is reserved before any live file changes. */
  predicate Begins(p: Publishing, s: System, s1: System) {
    if p.repair.None? then s1 == s.(progress := Installing)
    else if CanBegin(p, s, p.repair.value) then s1 == s.(progress := Installing, reserved := true)
    else s1 == s.(progress := Failed)
  }

  predicate Finishes(p: Publishing, s: System, s1: System, commit: Commit) {
    var next := if p.confirms then Confirming else Succeeded;
    if s.reserved && p.repair.Some? then Promotes(p, s, s1, p.repair.value, next, commit)
    else s1 == s.(progress := next, reserved := false)
  }

  /** finish: the compare-and-set, then the commit; the reservation ends either way. */
  predicate Promotes(p: Publishing, s: System, s1: System, selected: Selection, next: Progress, commit: Commit) {
    if !Matches(s.rows, p.goal.thread, selected) then s1 == s.(progress := Failed, reserved := false)
    else
      var g := p.goal;
      var updated := s.rows[g.thread := Promoted(s.rows[g.thread], g.mainPath, g.archived, g.modified)];
      match commit
      case Confirmed => s1 == s.(rows := updated, progress := next, reserved := false)
      case Refused => s1 == s.(progress := Failed, reserved := false)
      case Unconfirmed => s1 == s.(rows := updated, progress := Failed, reserved := false)
  }

  /** The destination as the second check sees it. */
  function TargetNow(p: Publishing, s: System, inv: seq<Candidate>): Target
    requires s.made < |p.trees|
  {
    Target(p.t.w, p.t.limits, p.trees[s.made], inv, RowNow(p, s))
  }

  /** The second check must find the same prerequisite selected. */
  ghost predicate Verifies(p: Publishing, s: System, s1: System, selected: Selection, inv: seq<Candidate>) {
    s.made < |p.trees| && 1 <= |p.inc.files| == |p.inc.payload| && InventoryOf(p.trees[s.made], inv) &&
    s1 == s.(progress := if Confirms(TargetNow(p, s, inv), p.inc, selected) then Verified(selected) else Failed)
  }

  predicate Confirms(t: Target, inc: Incoming, selected: Selection)
    requires 1 <= |inc.files| == |inc.payload|
  {
    var r := Check(t, inc);
    r.Ok? && |r.value| == |inc.files| && r.value[|inc.files| - 1].repair == Some(selected)
  }

  // ---- what may be promoted ----

  /** The row names a managed prerequisite, under its canonical path, of a rollout of this thread in the incoming
      lineage, both paginated. */
  predicate InLineage(inc: Incoming, sel: Selection)
    requires inc.files != []
  {
    PrerequisitePath(sel.path) && sel.mode == "paginated" && Main(inc).meta.mode == "paginated" &&
    ParseName(sel.path).Some? && ParseName(sel.path).value.thread == Main(inc).thread &&
    exists f | f in inc.files :: f.thread == Main(inc).thread && f.rollout == ParseName(sel.path).value.rollout &&
      TrimSuffix(sel.path, ".zst") == PREREQUISITE_ROOT + f.rollout + "/" + Base(TrimSuffix(sel.path, ".zst"))
  }

  /** Only such a row is ever to be repaired. */
  lemma RepairInLineage(t: Target, inc: Incoming)
    requires inc.files != [] && AdmitSelection(t, inc).Ok? && AdmissionOf(t, inc).repair.Some?
    ensures AdmissionOf(t, inc).repair == t.sel && InLineage(inc, t.sel.value)
  {
    hide ParseName, PrerequisitePath, TrimSuffix, SelectablePath, Forms, PresentForms, Base;
    var c := SelectedCandidate(t.sel.value, Main(inc)).value;
    assert RepairablePath(t.sel.value, inc, c);
  }

  lemma ConfirmsInLineage(t: Target, inc: Incoming, selected: Selection)
    requires 1 <= |inc.files| == |inc.payload| && Confirms(t, inc, selected)
    ensures InLineage(inc, selected)
  {
    hide AdmitSelection, WeighAll, ChooseFrom, InLineage, Unrivalled, AllFit;
    CheckAccepts(t, inc);
    var a, n := AdmissionOf(t, inc), |inc.files| - 1;
    ChooseFromFacts(t, inc, a, 0);
    WeighAllFacts(t, inc, n, FreshChoice(inc, n, a.repair), a.inv);
    RepairInLineage(t, inc);
  }

  /** What the publication's own description guarantees. */
  predicate Sensible(p: Publishing) {
    p.inc.files != [] && p.goal.mode == Main(p.inc).meta.mode && !PrerequisitePath(p.goal.mainPath) && p.trees != [] &&
    (p.repair.Some? ==> InLineage(p.inc, p.repair.value) && p.repair == p.t.sel)
  }

  // ---- safety ----

  /** The row is absent or names the complete main rollout, and no scan that could still say otherwise is running. */
  predicate RowSettled(p: Publishing, s: System) {
    (RowNow(p, s).Some? ==> NamesComplete(p.goal, RowNow(p, s).value)) && (s.scan.Backfilling? ==> s.scan.late)
  }

  /** A scan runs exactly when the database says so, without a database there are no rows, and a reservation excludes
      other writers of a completely indexed database. */
  predicate Coherent(s: System) {
    (s.scan.Backfilling? <==> s.status == Some(Running)) && (s.status.None? ==> s.rows == map[]) &&
    (s.reserved ==> s.status == Some(Complete))
  }

  predicate Inv(p: Publishing, s: System) {
    Coherent(s) && s.made < |p.trees| &&
    (s.progress.Accepting? || s.progress.Installing? || s.progress.Failed? || Installed(p, s)) &&
    (s.progress.Repairing? || s.progress.Verified? ==> s.status == Some(Complete)) &&
    (s.progress.Verified? ==> p.inc.files != [] && InLineage(p.inc, s.progress.selected)) &&
    (s.reserved ==> p.repair.Some? && Matches(s.rows, p.goal.thread, p.repair.value))
  }

  lemma NextKeeps(p: Publishing, s: System, s1: System, e: Event)
    requires Sensible(p) && Inv(p, s) && Next(p, s, s1, e)
    ensures Inv(p, s1)
  {
    hide PrerequisitePath, TrimSuffix, InLineage, NamesComplete, Confirms, Listed, IdsOf, Read, HasPrefix;
    if e.Verify? && s1.progress.Verified? {
      ConfirmsInLineage(TargetNow(p, s, e.inv), p.inc, s.progress.selected);
    }
  }

  /** A confirmed selection stays confirmed. */
  lemma NextSettles(p: Publishing, s: System, s1: System, e: Event)
    requires Sensible(p) && Inv(p, s) && Next(p, s, s1, e) && p.confirms
    requires s.progress.Succeeded? ==> RowSettled(p, s)
    ensures s1.progress.Succeeded? ==> RowSettled(p, s1)
  {
    hide PrerequisitePath, TrimSuffix, Confirms, Listed, IdsOf, Read, HasPrefix, ParseName, Base;
  }

  /** A run of publisher and indexer from any state of the database, the check just passed. */
  ghost predicate Run(p: Publishing, tr: seq<System>) {
    tr != [] && Initial(p, tr[0]) && forall i | 0 <= i < |tr| - 1 :: Happens(p, tr[i], tr[i + 1])
  }

  /** The row is the one the check read; a scan that is already running has collected files of the destination. */
  predicate Initial(p: Publishing, s: System) {
    Coherent(s) && s.progress.Accepting? && s.made == 0 && !s.reserved && RowNow(p, s) == p.t.sel && p.trees != [] &&
    (s.scan.Backfilling? ==> !s.scan.late && FromTree(p, p.trees[0], s.scan.seen))
  }

  predicate FromTree(p: Publishing, tree: Tree, seen: map<string, Node>) {
    forall q | q in seen :: q in tree && seen[q] == tree[q] && Listed(q) && IdsOf(q).thread == p.goal.thread
  }

  ghost predicate Happens(p: Publishing, s: System, s1: System) {
    exists e :: Next(p, s, s1, e)
  }

  lemma {:induction false} RunInv(p: Publishing, tr: seq<System>, i: nat)
    requires Sensible(p) && Run(p, tr) && i < |tr|
    ensures Inv(p, tr[i])
  {
    hide Next, Sensible;
    if i > 0 {
      RunInv(p, tr, i - 1);
      assert Happens(p, tr[i - 1], tr[i - 1 + 1]);
      var e :| Next(p, tr[i - 1], tr[i], e);
      hide Inv;
      NextKeeps(p, tr[i - 1], tr[i], e);
    }
  }

  lemma {:induction false} RunSettles(p: Publishing, tr: seq<System>, i: nat)
    requires Sensible(p) && Run(p, tr) && i < |tr| && p.confirms
    ensures tr[i].progress.Succeeded? ==> RowSettled(p, tr[i])
  {
    hide Next, Sensible, Inv, RowSettled;
    if i > 0 {
      RunSettles(p, tr, i - 1);
      RunInv(p, tr, i - 1);
      assert Happens(p, tr[i - 1], tr[i - 1 + 1]);
      var e :| Next(p, tr[i - 1], tr[i], e);
      NextSettles(p, tr[i - 1], tr[i], e);
    }
  }

  /** Whatever publisher and indexer do, a row that the publisher changes named a prerequisite of a rollout of this
      thread in the incoming lineage and names the reported main path afterwards, as a complete paginated conversation;
      it changes no other row, and none while a scan runs. */
  lemma PromotedNamed(p: Publishing, tr: seq<System>, i: nat, e: Event)
    requires Sensible(p) && Run(p, tr) && i < |tr| - 1 && Next(p, tr[i], tr[i + 1], e)
    requires !e.CreateDatabase? && !e.Upsert? && !e.OtherWriter? && tr[i + 1].rows != tr[i].rows
    ensures RowNow(p, tr[i]).Some? && InLineage(p.inc, RowNow(p, tr[i]).value)
    ensures RowNow(p, tr[i + 1]) == Some(Selection(p.goal.mainPath, "paginated", p.goal.archived))
    ensures NamesComplete(p.goal, RowNow(p, tr[i + 1]).value) && tr[i].status == Some(Complete) && Installed(p, tr[i])
    ensures forall id | id != p.goal.thread :: Selected(tr[i + 1].rows, id) == Selected(tr[i].rows, id)
  {
    hide Run;
    RunInv(p, tr, i);
    PromotedStep(p, tr[i], tr[i + 1], e);
  }

  lemma PromotedStep(p: Publishing, s: System, s1: System, e: Event)
    requires Sensible(p) && Inv(p, s) && Next(p, s, s1, e)
    requires !e.CreateDatabase? && !e.Upsert? && !e.OtherWriter? && s1.rows != s.rows
    ensures RowNow(p, s).Some? && InLineage(p.inc, RowNow(p, s).value)
    ensures RowNow(p, s1) == Some(Selection(p.goal.mainPath, "paginated", p.goal.archived))
    ensures NamesComplete(p.goal, RowNow(p, s1).value) && s.status == Some(Complete) && Installed(p, s)
    ensures forall id | id != p.goal.thread :: Selected(s1.rows, id) == Selected(s.rows, id)
  {
    hide PrerequisitePath, TrimSuffix, Confirms, Listed, IdsOf, Read, HasPrefix, ParseName, Base;
  }
}
