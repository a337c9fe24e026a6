// When a publication may do without confirming the selection: publish of internal/session/publish.go beside an indexer
// that was already collecting files.

module Overlap {
  import opened Model
  import opened Format
  import opened Rollout
  import opened Inspect
  import opened Lineage
  import opened Conflicts
  import opened Steps
  import opened Comparison
  import opened Planning
  import opened Retry
  import opened EndToEnd
  import opened Closure
  import opened StateDb
  import opened Indexing

  // ---- what an accepted check says about the row ----

  lemma AcceptedChecked(t: Target, inc: Incoming, stage: Stage)
    requires Accepted(t, inc) && StageFor(t.w, inc, Check(t, inc).value, stage)
    ensures Checked(t, inc, stage) && AdmitSelectionOk(t, inc) && |Check(t, inc).value| == |inc.files|
  {
    hide Check, StageFor, AdmitSelection;
    AcceptedFacts(t, inc);
  }

  /** The reported main path is one of the complete conversation, never a prerequisite. */
  lemma MainPathNames(t: Target, inc: Incoming, stage: Stage)
    requires Accepted(t, inc) && StageFor(t.w, inc, Check(t, inc).value, stage)
    ensures Checked(t, inc, stage)
    ensures var path := PublishingOf(t, inc, stage).goal.mainPath;
            !PrerequisitePath(path) && (Listed(path) ==> IdsOf(path).rollout == Main(inc).rollout)
  {
    hide AdmitSelection, Accepted, Check, StageFor, StepsOf, ParseName, ManagedPath, PrerequisitePath, WeighAll;
    hide Describes, Joined, Distinct, MustGrow, Extensions, AllOf, Present, Trees;
    AcceptedChecked(t, inc, stage);
    AcceptedLossless(t, inc);
    AcceptedFacts(t, inc);
    var n, a := |inc.files| - 1, AdmissionOf(t, inc);
    ChoiceAt(t, inc, n);
    PrefixUnlessLast(t.w, t.limits, inc, n);
    if Check(t, inc).value[n].present {
      ChosenPath(t, inc, n, FreshChoice(inc, n, a.repair), a.inv);
      var c :| c in a.inv && Usable(inc, n, c) && c.path == Check(t, inc).value[n].path;
      AdmissionFacts(t, inc);
      EitherPart(a.inv, |t.inv|, c);
      ListedIn(t, c);
    } else {
      ValidAt(t.w, t.limits, inc, n);
    }
  }

  lemma SensiblePublication(t: Target, inc: Incoming, stage: Stage)
    requires Accepted(t, inc) && StageFor(t.w, inc, Check(t, inc).value, stage)
    ensures Checked(t, inc, stage) && Sensible(PublishingOf(t, inc, stage))
    ensures AdmitSelectionOk(t, inc) && PublishingOf(t, inc, stage).repair == AdmissionOf(t, inc).repair
  {
    hide AdmitSelection, Accepted, Check, StageFor, StepsOf, ParseName, PrerequisitePath, InLineage, ValidFile;
    hide Joined, Distinct, Extensions, AllOf, Present;
    MainPathNames(t, inc, stage);
    AcceptedChecked(t, inc, stage);
    AcceptedLossless(t, inc);
    ChoiceAt(t, inc, |inc.files| - 1);
    PrefixUnlessLast(t.w, t.limits, inc, |inc.files| - 1);
    if AdmissionOf(t, inc).repair.Some? {
      RepairInLineage(t, inc);
    }
  }

  /** A publication that repairs the row also confirms it. */
  lemma RepairConfirms(t: Target, inc: Incoming, stage: Stage)
    requires Accepted(t, inc) && StageFor(t.w, inc, Check(t, inc).value, stage)
    ensures Checked(t, inc, stage)
    ensures PublishingOf(t, inc, stage).repair.Some? ==> PublishingOf(t, inc, stage).confirms
  {
    hide AdmitSelection, Accepted, Check, StageFor, StepsOf, ParseName, PrerequisitePath, ManagedPath, ValidFile;
    hide Joined, Distinct, Extensions, AllOf, Present, Trees, TrimSuffix, Base, ValidRelative, Filter, Forms, Sensible;
    AcceptedChecked(t, inc, stage);
    SensiblePublication(t, inc, stage);
    AcceptedLossless(t, inc);
    ChoiceAt(t, inc, |inc.files| - 1);
    PrefixUnlessLast(t.w, t.limits, inc, |inc.files| - 1);
    var a := AdmissionOf(t, inc);
    if a.repair.Some? && |inc.files| == 1 {
      RepairInLineage(t, inc);
      NoPrerequisiteForm(t, inc);
      var path := t.sel.value.path;
      AdmittedSelectable(t, inc);
      SelectableForms(path);
      var c := Forms(t.inv, path)[0];
      InForms(t.inv, path, c);
      FormsAlike(c.path, path);
      AdmissionFacts(t, inc);
      assert c in a.inv[..|t.inv|];
      ListedIn(t, c);
    }
  }

  lemma AdmittedSelectable(t: Target, inc: Incoming)
    requires inc.files != [] && AdmitSelection(t, inc).Ok? && t.sel.Some?
    ensures SelectablePath(t.sel.value.path)
  {
    hide ParseName, PrerequisitePath, SelectablePath, RepairablePath, Forms, PresentForms;
  }

  lemma InForms(inv: seq<Candidate>, path: string, c: Candidate)
    requires c in Forms(inv, path)
    ensures c in inv && TrimSuffix(c.path, ".zst") == TrimSuffix(path, ".zst")
  {
    hide TrimSuffix;
  }

  // ---- a publication that does not confirm ----

  /** Every file the destination lists for the thread is of the main rollout: what a caller can see before the call. */
  predicate Alone(t: Target, inc: Incoming)
    requires inc.files != []
  {
    forall q | q in t.tree && Listed(q) && IdsOf(q).thread == inc.thread :: IdsOf(q).rollout == Main(inc).rollout
  }

  /** The row names a complete representation of the main rollout: the reported path, any ordinary path of that rollout,
      or the path the check found selected. */
  predicate Right(p: Publishing, sel: Selection)
    requires p.inc.files != []
  {
    !PrerequisitePath(sel.path) && sel.mode == p.goal.mode &&
    (Some(sel) == p.t.sel || TrimSuffix(sel.path, ".zst") == TrimSuffix(p.goal.mainPath, ".zst") ||
     (Listed(sel.path) && IdsOf(sel.path).rollout == Main(p.inc).rollout))
  }

  /** A stored file that a scan records rightly. */
  predicate MainLike(p: Publishing, q: string, node: Node)
    requires p.inc.files != []
  {
    Listed(q) && !PrerequisitePath(q) && IdsOf(q).rollout == Main(p.inc).rollout &&
    var r := Read(p.t.w, node, IdsOf(q), None, p.t.limits, false);
    r.Ok? && r.value.meta.mode == p.goal.mode
  }

  /** The thread's files at every point of the publication. */
  predicate TreesMain(p: Publishing)
    requires p.inc.files != []
  {
    forall k, q | 0 <= k < |p.trees| && q in p.trees[k] && Listed(q) && IdsOf(q).thread == p.goal.thread ::
      MainLike(p, q, p.trees[k][q])
  }

  lemma KeptMain(t: Target, inc: Incoming, q: string)
    requires Accepted(t, inc) && AdmitSelectionOk(t, inc) && |inc.files| == 1
    requires |Check(t, inc).value| == 1 && !Check(t, inc).value[0].promoted
    requires q in t.tree && Listed(q) && IdsOf(q).rollout == Main(inc).rollout
    ensures !PrerequisitePath(q)
    ensures var r := Read(t.w, t.tree[q], IdsOf(q), None, t.limits, false);
            r.Ok? && r.value.meta.mode == Main(inc).meta.mode
  {
    hide AdmitSelection, Accepted, Check, ParseName, PrerequisitePath, ManagedPath, ValidFile, Joined, Distinct;
    hide Extensions, AllOf, Present, Read, MustGrow, Compare;
    AcceptedLossless(t, inc);
    ChoiceAt(t, inc, 0);
    PrefixUnlessLast(t.w, t.limits, inc, 0);
    var c, a := IdsOf(q), AdmissionOf(t, inc);
    PathOfIds(q);
    ListedAdmitted(t, inc, c);
    if MustGrow(t, inc, 0, c) {
      GrowingCandidate(t, inc, 0, c);
    }
    FitReads(t, inc, 0, c);
  }

  lemma NewMain(t: Target, inc: Incoming, q: string, node: Node)
    requires Accepted(t, inc) && AdmitSelectionOk(t, inc) && |inc.files| == |inc.payload| == 1
    requires |Check(t, inc).value| == 1 && !Check(t, inc).value[0].promoted && Dealt(t, inc, q, node)
    ensures Listed(q) && IdsOf(q).rollout == Main(inc).rollout && !PrerequisitePath(q)
    ensures var r := Read(t.w, node, IdsOf(q), None, t.limits, false);
            r.Ok? && r.value.meta.mode == Main(inc).meta.mode
  {
    hide AdmitSelection, Accepted, Check, ParseName, PrerequisitePath, ManagedPath, Describes, Joined, Distinct;
    hide Extensions, AllOf, Present, Read, MustGrow, Compare, Encode, Decoded;
    AcceptedLossless(t, inc);
    assert Settled(t, inc, 0, q, node);
    PathOfIds(q);
    PrefixUnlessLast(t.w, t.limits, inc, 0);
    ReadSettled(t.w, t.limits, inc, 0, node, IdsOf(q));
    if q in t.tree {
      ChoiceAt(t, inc, 0);
      ListedAdmitted(t, inc, IdsOf(q));
      GrowingCandidate(t, inc, 0, IdsOf(q));
    } else {
      ValidAt(t.w, t.limits, inc, 0);
    }
  }

  lemma OnlyMainStored(t: Target, inc: Incoming, stage: Stage)
    requires Accepted(t, inc) && StageFor(t.w, inc, Check(t, inc).value, stage) && Checked(t, inc, stage)
    requires !PublishingOf(t, inc, stage).confirms && Alone(t, inc)
    ensures TreesMain(PublishingOf(t, inc, stage))
  {
    hide AdmitSelection, Accepted, Check, StageFor, StepsOf, ParseName, PrerequisitePath, ManagedPath, Read, Dealt;
    var p := PublishingOf(t, inc, stage);
    AcceptedChecked(t, inc, stage);
    forall k, q | 0 <= k < |p.trees| && q in p.trees[k] && Listed(q) && IdsOf(q).thread == p.goal.thread
      ensures MainLike(p, q, p.trees[k][q])
    {
      StopsUnderway(t, inc, stage, k);
      if q in t.tree && p.trees[k][q] == t.tree[q] {
        KeptMain(t, inc, q);
      } else {
        NewMain(t, inc, q, p.trees[k][q]);
      }
    }
  }

  predicate UnconfirmedInv(p: Publishing, s: System)
    requires p.inc.files != []
  {
    !s.reserved && s.made < |p.trees| && (RowNow(p, s).Some? ==> Right(p, RowNow(p, s).value)) &&
    (s.scan.Backfilling? ==> forall q | q in s.scan.seen :: MainLike(p, q, s.scan.seen[q])) &&
    !s.progress.Confirming? && !s.progress.Repairing? && !s.progress.Verified?
  }

  lemma UnconfirmedKeeps(p: Publishing, s: System, s1: System, e: Event)
    requires p.inc.files != [] && !p.confirms && p.repair.None? && TreesMain(p)
    requires UnconfirmedInv(p, s) && Next(p, s, s1, e)
    ensures UnconfirmedInv(p, s1)
  {
    hide PrerequisitePath, TrimSuffix, Listed, IdsOf, Read, HasPrefix, Verifies;
  }

  lemma {:induction false} UnconfirmedRun(p: Publishing, tr: seq<System>, i: nat)
    requires p.inc.files != [] && !p.confirms && p.repair.None? && TreesMain(p) && Run(p, tr) && i < |tr|
    requires p.t.sel.Some? ==> Right(p, p.t.sel.value)
    ensures UnconfirmedInv(p, tr[i])
  {
    hide Next, Right, MainLike, Listed, IdsOf;
    if i > 0 {
      UnconfirmedRun(p, tr, i - 1);
      assert Happens(p, tr[i - 1], tr[i - 1 + 1]);
      var e :| Next(p, tr[i - 1], tr[i], e);
      UnconfirmedKeeps(p, tr[i - 1], tr[i], e);
    }
  }

  /** Every run is right: whenever the publication has succeeded, and ever after, the thread's row is absent or names
      a complete representation of the main rollout. */
  ghost predicate SelectionHolds(p: Publishing)
    requires p.inc.files != []
  {
    forall tr: seq<System>, i | Run(p, tr) && 0 <= i < |tr| && tr[i].progress == Succeeded ::
      RowNow(p, tr[i]).None? || Right(p, RowNow(p, tr[i]).value)
  }

  // ---- the run that goes wrong ----

  lemma OneMore(p: Publishing, tr: seq<System>, s1: System, e: Event) returns (tr1: seq<System>)
    requires Run(p, tr) && Next(p, tr[|tr| - 1], s1, e)
    ensures Run(p, tr1) && tr1 == tr + [s1]
  {
    hide Next, Initial;
    tr1 := tr + [s1];
    forall i | 0 <= i < |tr1| - 1
      ensures Happens(p, tr1[i], tr1[i + 1])
    {
      if i == |tr| - 1 {
        assert Happens(p, tr[|tr| - 1], s1);
      } else {
        assert Happens(p, tr[i], tr[i + 1]);
      }
    }
  }

  lemma Making(p: Publishing, s: System)
    requires s.progress.Installing? && s.made + 1 < |p.trees|
    ensures Next(p, s, s.(made := s.made + 1), Make)
  {
  }

  lemma {:induction false} MakeAll(p: Publishing, tr: seq<System>) returns (tr1: seq<System>)
    requires Run(p, tr) && tr[|tr| - 1].progress.Installing? && tr[|tr| - 1].made < |p.trees|
    ensures Run(p, tr1) && tr1 != [] && tr1[|tr1| - 1] == tr[|tr| - 1].(made := |p.trees| - 1) && tr <= tr1
    decreases |p.trees| - tr[|tr| - 1].made
  {
    hide Next, Initial;
    var s := tr[|tr| - 1];
    if s.made + 1 == |p.trees| {
      tr1 := tr;
    } else {
      assert Next(p, s, s.(made := s.made + 1), Make) by {
        Making(p, s);
      }
      tr1 := OneMore(p, tr, s.(made := s.made + 1), Make);
      tr1 := MakeAll(p, tr1);
    }
  }

  // ---- the run that goes well ----

  /** The database lets the publication succeed: it is not being indexed, a row to be repaired can be reserved and is
      the one the check read, and any other row is absent or already names what is published. */
  predicate Favourable(p: Publishing, s: System) {
    s.status != Some(Running) &&
    if p.repair.Some? then CanBegin(p, s, p.repair.value)
    else s.status.None? || RowNow(p, s).None? || NamesComplete(p.goal, RowNow(p, s).value)
  }

  /** What success leaves: every step made, the row promoted where it named a prerequisite and untouched otherwise. */
  predicate Successful(p: Publishing, s: System, s1: System) {
    s1.progress == Succeeded && Installed(p, s1) && !s1.reserved && s1.status == s.status &&
    if p.repair.Some? then RowNow(p, s1) == Some(Selection(p.goal.mainPath, "paginated", p.goal.archived))
    else s1.rows == s.rows
  }

  lemma Begun(p: Publishing, s: System)
    requires Initial(p, s) && Favourable(p, s)
    ensures Next(p, s, s.(progress := Installing, reserved := p.repair.Some?), Begin)
    ensures p.trees != [] && s.made == 0
  {
    hide Coherent, NamesComplete, FromTree;
  }

  /** The rows after the promotion, where there is one. */
  function RowsAfter(p: Publishing, s: System): Table {
    if p.repair.Some? && p.goal.thread in s.rows
    then s.rows[p.goal.thread := Promoted(s.rows[p.goal.thread], p.goal.mainPath, p.goal.archived, p.goal.modified)]
    else s.rows
  }

  lemma Finishing(p: Publishing, s: System, s1: System)
    requires Favourable(p, s) && Installed(p, s1) && s1.rows == s.rows && s1.progress.Installing?
    requires s1.reserved == p.repair.Some?
    ensures Next(p, s1, s1.(rows := RowsAfter(p, s), reserved := false,
                            progress := if p.confirms then Progress.Confirming else Succeeded), Finish(Confirmed))
  {
    hide NamesComplete;
  }

  lemma Looking(p: Publishing, s: System, s1: System)
    requires Sensible(p) && Favourable(p, s) && s1.status == s.status && s1.rows == RowsAfter(p, s)
    requires s1.progress.Confirming?
    ensures Next(p, s1, s1.(progress := Succeeded), Look)
  {
    hide ParseName, PrerequisitePath, TrimSuffix, Base;
  }

  lemma PromotedRow(p: Publishing, s: System)
    requires Favourable(p, s) && p.repair.Some?
    ensures Selected(RowsAfter(p, s), p.goal.thread) ==
            Some(Selection(p.goal.mainPath, "paginated", p.goal.archived))
  {
  }

  /** Progress: from every such state the publication can be made to its end by its own events alone, reservation,
      steps, promotion and confirmation. */
  lemma Succeeds(p: Publishing, s: System) returns (tr: seq<System>)
    requires Sensible(p) && Initial(p, s) && Favourable(p, s)
    ensures Run(p, tr) && tr != [] && tr[0] == s && Successful(p, s, tr[|tr| - 1])
  {
    hide Run, Next, Initial, Sensible, Favourable, RowsAfter;
    tr := [s];
    assert Run(p, tr) by {
      Start(p, s);
    }
    Begun(p, s);
    var s1 := s.(progress := Installing, reserved := p.repair.Some?);
    tr := OneMore(p, tr, s1, Begin);
    tr := MakeAll(p, tr);
    var s2 := s1.(made := |p.trees| - 1);
    Finishing(p, s, s2);
    var s3 := s2.(rows := RowsAfter(p, s), reserved := false,
                  progress := if p.confirms then Progress.Confirming else Succeeded);
    tr := OneMore(p, tr, s3, Finish(Confirmed));
    if p.confirms {
      Looking(p, s, s3);
      tr := OneMore(p, tr, s3.(progress := Succeeded), Look);
    }
    if p.repair.Some? {
      PromotedRow(p, s);
    } else {
      NoPromotion(p, s);
    }
  }

  lemma NoPromotion(p: Publishing, s: System)
    requires p.repair.None?
    ensures RowsAfter(p, s) == s.rows
  {
  }

  predicate OtherRowsKept(p: Publishing, before: Table, after: Table) {
    before.Keys - {p.goal.thread} == after.Keys - {p.goal.thread} &&
    forall id | id in before && id in after && id != p.goal.thread :: after[id] == before[id]
  }

  /** A row found only afterwards: where indexing has ended with the row of a prerequisite that a second check of the
      destination confirms, the publication can still promote it and succeed. */
  lemma RepairsLate(p: Publishing, run: seq<System>, selected: Selection, inv: seq<Candidate>)
    returns (tr: seq<System>)
    requires Run(p, run) && var s := run[|run| - 1];
             s.progress.Confirming? && s.status == Some(Complete) && RowNow(p, s) == Some(selected) &&
             PrerequisitePath(selected.path) && s.made < |p.trees| && 1 <= |p.inc.files| == |p.inc.payload| &&
             InventoryOf(p.trees[s.made], inv) && Confirms(TargetNow(p, s, inv), p.inc, selected)
    ensures Run(p, tr) && run <= tr && tr[|tr| - 1].progress == Succeeded
    ensures RowNow(p, tr[|tr| - 1]) == Some(Selection(p.goal.mainPath, "paginated", p.goal.archived))
    ensures OtherRowsKept(p, run[|run| - 1].rows, tr[|tr| - 1].rows)
  {
    hide Initial, Confirms, InventoryOf, PrerequisitePath, InLineage, NamesComplete, Happens;
    var s := run[|run| - 1];
    ConfirmsInLineage(TargetNow(p, s, inv), p.inc, selected);
    LineageMode(p.inc, selected);
    var s1 := s.(progress := Repairing(selected));
    tr := OneMore(p, run, s1, Look);
    var s2 := s.(progress := Verified(selected));
    tr := OneMore(p, tr, s2, Verify(inv));
    var rows := s.rows[p.goal.thread := Promoted(s.rows[p.goal.thread], p.goal.mainPath, p.goal.archived,
                                                 p.goal.modified)];
    tr := OneMore(p, tr, s.(rows := rows, progress := Succeeded, reserved := false), Promote(Confirmed));
  }

  lemma LineageMode(inc: Incoming, sel: Selection)
    requires inc.files != [] && InLineage(inc, sel)
    ensures sel.mode == "paginated"
  {
    hide PrerequisitePath, ParseName;
  }

  function RecordOf(p: Publishing, q: string, node: Node): (row: Row)
    requires Listed(q)
    ensures row.path == q && Recorded(p, row, node)
  {
    var r := Read(p.t.w, node, IdsOf(q), None, p.t.limits, false);
    Row(q, if r.Ok? then r.value.meta.mode else "legacy", HasPrefix(q, "archived_sessions/"), None)
  }

  /** A scan that was already running collects a file of the thread, publish returns, and the scan records it. */
  lemma OverlappingScan(p: Publishing, q: string) returns (tr: seq<System>)
    requires p.inc.files != [] && p.trees != [] && !p.confirms && p.repair.None?
    requires q in p.trees[0] && Listed(q) && IdsOf(q).thread == p.goal.thread
    ensures Run(p, tr) && tr != [] && tr[|tr| - 1].progress == Succeeded
    ensures RowNow(p, tr[|tr| - 1]).Some? && RowNow(p, tr[|tr| - 1]).value.path == q
  {
    hide Run, Listed, IdsOf, Recorded;
    var rows: Table := if p.t.sel.None? then map[]
                else map[p.goal.thread := Row(p.t.sel.value.path, p.t.sel.value.mode, p.t.sel.value.archived, None)];
    var s0 := System(Some(Running), rows, Backfilling(false, map[]), 0, false, Accepting);
    tr := [s0];
    assert Run(p, tr) by {
      Start(p, s0);
    }
    var s1 := s0.(scan := Backfilling(false, map[q := p.trees[0][q]]));
    tr := OneMore(p, tr, s1, Collect(q));
    tr := OneMore(p, tr, s1.(progress := Installing), Begin);
    tr := MakeAll(p, tr);
    var s3 := s1.(progress := Succeeded, made := |p.trees| - 1);
    tr := OneMore(p, tr, s3, Finish(Confirmed));
    var row := RecordOf(p, q, p.trees[0][q]);
    tr := OneMore(p, tr, s3.(rows := rows[p.goal.thread := row]), Upsert(p.goal.thread, row));
  }

  lemma Start(p: Publishing, s: System)
    requires Initial(p, s)
    ensures Run(p, [s])
  {
  }

  /** A path of another rollout of the thread is not one of the main rollout under any name. */
  lemma OtherRollout(t: Target, inc: Incoming, stage: Stage, sel: Selection)
    requires Accepted(t, inc) && StageFor(t.w, inc, Check(t, inc).value, stage) && Checked(t, inc, stage)
    requires Listed(sel.path) && IdsOf(sel.path).rollout != Main(inc).rollout && ValidRelative(sel.path)
    ensures !Right(PublishingOf(t, inc, stage), sel)
  {
    hide AdmitSelection, Accepted, Check, StageFor, StepsOf, ParseName, PrerequisitePath, ManagedPath, TrimSuffix;
    hide ValidRelative, Trees, Forms, PresentForms;
    var p := PublishingOf(t, inc, stage);
    AcceptedChecked(t, inc, stage);
    MainPathNames(t, inc, stage);
    ParsedSuffix(sel.path);
    SelectableSuffix(sel.path);
    if TrimSuffix(sel.path, ".zst") == TrimSuffix(p.goal.mainPath, ".zst") {
      FormsAlike(sel.path, p.goal.mainPath);
    }
    if Some(sel) == t.sel && !PrerequisitePath(sel.path) {
      SelectionAdmitted(t, inc);
    }
  }

  /** The paths of a directory walk. */
  predicate CleanPaths(tree: Tree) {
    forall q | q in tree :: ValidRelative(q)
  }

  // ---- the exact condition ----

  /** A publication that confirms leaves, in every interleaving with the indexer, the row absent or naming exactly what
      it reports: the main path in one of its forms, the mode and the archive flag. */
  lemma ConfirmedSelection(t: Target, inc: Incoming, stage: Stage, tr: seq<System>, i: nat)
    requires Accepted(t, inc) && StageFor(t.w, inc, Check(t, inc).value, stage) && Checked(t, inc, stage)
    requires PublishingOf(t, inc, stage).confirms
    requires Run(PublishingOf(t, inc, stage), tr) && i < |tr| && tr[i].progress.Succeeded?
    ensures var p := PublishingOf(t, inc, stage);
            RowNow(p, tr[i]).None? || NamesComplete(p.goal, RowNow(p, tr[i]).value)
  {
    hide Accepted, Check, Checked, StageFor, PublishingOf, Sensible, Run, NamesComplete;
    SensiblePublication(t, inc, stage);
    RunSettles(PublishingOf(t, inc, stage), tr, i);
  }

  lemma AloneSelection(t: Target, inc: Incoming, stage: Stage)
    requires Accepted(t, inc) && StageFor(t.w, inc, Check(t, inc).value, stage) && Checked(t, inc, stage)
    requires !PublishingOf(t, inc, stage).confirms && Alone(t, inc)
    ensures SelectionHolds(PublishingOf(t, inc, stage))
  {
    hide Accepted, Check, StageFor, StepsOf, Sensible, Run, Right, Trees, AdmitSelection, TreesMain;
    var p := PublishingOf(t, inc, stage);
    SensiblePublication(t, inc, stage);
    RepairConfirms(t, inc, stage);
    OnlyMainStored(t, inc, stage);
    if t.sel.Some? {
      SelectedRight(t, inc, stage);
    }
    forall tr: seq<System>, i | Run(p, tr) && 0 <= i < |tr| && tr[i].progress == Succeeded
      ensures RowNow(p, tr[i]).None? || Right(p, RowNow(p, tr[i]).value)
    {
      UnconfirmedRun(p, tr, i);
    }
  }

  /** A row the check accepted without a repair is right. */
  lemma SelectedRight(t: Target, inc: Incoming, stage: Stage)
    requires Accepted(t, inc) && StageFor(t.w, inc, Check(t, inc).value, stage) && Checked(t, inc, stage)
    requires AdmitSelectionOk(t, inc) && AdmissionOf(t, inc).repair.None? && t.sel.Some?
    ensures Right(PublishingOf(t, inc, stage), t.sel.value)
  {
    hide Accepted, Check, StageFor, StepsOf, ParseName, PrerequisitePath, SelectablePath, RepairablePath, TrimSuffix;
    hide Forms, PresentForms, Trees, Listed;
  }

  /** Selection under a concurrent indexer, with its exact condition. A publication that returns successfully leaves the
      thread's row absent or naming a complete representation of the main rollout, in every interleaving, if and only
      if it had several files, or it promoted a managed prefix, or the destination lists no file of another rollout of
      the thread when it is checked. */
  lemma SelectionExactly(t: Target, inc: Incoming, stage: Stage)
    requires Accepted(t, inc) && StageFor(t.w, inc, Check(t, inc).value, stage) && CleanPaths(t.tree)
    ensures Checked(t, inc, stage) && inc.files != []
    ensures SelectionHolds(PublishingOf(t, inc, stage)) <==>
            |inc.files| > 1 || Check(t, inc).value[|inc.files| - 1].promoted || Alone(t, inc)
  {
    hide Accepted, Check, StageFor, StepsOf, Sensible, Run, Right, Trees, AdmitSelection, NamesComplete, ValidRelative;
    hide Listed, IdsOf;
    AcceptedChecked(t, inc, stage);
    var p := PublishingOf(t, inc, stage);
    if p.confirms {
      forall tr: seq<System>, i | Run(p, tr) && 0 <= i < |tr| && tr[i].progress == Succeeded
        ensures RowNow(p, tr[i]).None? || Right(p, RowNow(p, tr[i]).value)
      {
        ConfirmedSelection(t, inc, stage, tr, i);
        if RowNow(p, tr[i]).Some? {
          CompleteIsRight(p, RowNow(p, tr[i]).value);
        }
      }
    } else if Alone(t, inc) {
      AloneSelection(t, inc, stage);
    } else {
      var q :| q in t.tree && Listed(q) && IdsOf(q).thread == inc.thread && IdsOf(q).rollout != Main(inc).rollout;
      RepairConfirms(t, inc, stage);
      assert p.trees[0] == t.tree by {
        NothingMade(t, inc, stage);
      }
      var tr := OverlappingScan(p, q);
      OtherRollout(t, inc, stage, RowNow(p, tr[|tr| - 1]).value);
      assert tr[|tr| - 1].progress == Succeeded;
    }
  }

  lemma CompleteIsRight(p: Publishing, sel: Selection)
    requires p.inc.files != [] && NamesComplete(p.goal, sel)
    ensures Right(p, sel)
  {
    hide PrerequisitePath, TrimSuffix, Listed;
  }

  lemma NothingMade(t: Target, inc: Incoming, stage: Stage)
    requires Checked(t, inc, stage)
    ensures PublishingOf(t, inc, stage).trees != [] && PublishingOf(t, inc, stage).trees[0] == t.tree
  {
    hide Check, StageFor, StepsOf;
    var steps := StepsOf(t.w, inc, Check(t, inc).value, stage);
    assert steps[..0] == [];
  }

  /** Where no row names the thread, such a file is always a managed prerequisite: the check refuses any other. */
  lemma UnselectedPrerequisite(t: Target, inc: Incoming, q: string)
    requires Accepted(t, inc) && inc.files != [] && t.sel.None?
    requires q in t.tree && Listed(q) && IdsOf(q).thread == inc.thread && IdsOf(q).rollout != Main(inc).rollout
    ensures PrerequisitePath(q)
  {
    hide AdmitSelection, Accepted, Check, ParseName, PrerequisitePath, ManagedPath, ValidFile, Joined, Distinct, AllFit;
    AcceptedLossless(t, inc);
    AcceptedFacts(t, inc);
    PathOfIds(q);
    ListedAdmitted(t, inc, IdsOf(q));
  }
}
