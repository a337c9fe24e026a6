// One more run after a complete publication: internal/session/publish.go.

module Repetition {
  import opened Model
  import opened Format
  import opened Inspect
  import opened Lineage
  import opened Conflicts
  import opened Steps
  import opened Comparison
  import opened Planning
  import opened Publication
  import opened Retry
  import opened Convergence
  import opened EndToEnd
  import opened Closure
  import opened Publisher

  /** The row a repairing publication leaves. */
  function RepairedRow(inc: Incoming, choices: seq<Choice>): Selection
    requires inc.files != [] && |choices| == |inc.files|
  {
    var report := ReportOf(inc, choices);
    Selection(report.mainPath, "paginated", report.archived)
  }

  /** The destination as the next run sees it: the row is as it was, or repaired where it named a prerequisite. */
  ghost predicate NextRun(t: Target, inc: Incoming, t1: Target)
    requires Accepted(t, inc) && inc.files != [] && |Check(t, inc).value| == |inc.files|
  {
    t1.w == t.w && t1.limits == t.limits && InventoryOf(t1.tree, t1.inv) &&
    if t.sel.Some? && PrerequisitePath(t.sel.value.path) then
      t1.sel == Some(RepairedRow(inc, Check(t, inc).value)) && ValidRelative(t1.sel.value.path)
    else t1.sel == t.sel
  }

  /** Nothing depends on the row but its admission. */
  lemma SameWithRow(t: Target, t1: Target, inc: Incoming, i: nat, c: Candidate)
    requires i < |inc.files| == |inc.payload| && t1 == t.(sel := t1.sel)
    ensures Fits(t1, inc, i, c) == Fits(t, inc, i, c) && MustGrow(t1, inc, i, c) == MustGrow(t, inc, i, c)
  {
    hide Compare;
  }

  /** A row naming the complete conversation is admitted as it is. */
  lemma RowAdmitted(t: Target, inc: Incoming, row: Selection)
    requires inc.files != [] && InventoryOf(t.tree, t.inv) && t.sel == Some(row)
    requires NamesMain(t, inc, row.path) && !PrerequisitePath(row.path) && row.mode == Main(inc).meta.mode
    requires IdsOf(row.path).thread == Main(inc).thread
    ensures AdmitSelection(t, inc) == Ok(Admission(t.inv, None))
  {
    hide ParseName, ManagedPath, PrerequisitePath, TrimSuffix, ValidRelative, Filter;
    ParsedSuffix(row.path);
    PathOfIds(row.path);
    assert IdsOf(row.path) in Forms(t.inv, row.path);
    assert t.inv + [] == t.inv;
  }

  /** With the repaired row in place of the prerequisite one, the check accepts again and still finds nothing to do. */
  lemma IdleWithRow(t: Target, inc: Incoming, row: Selection)
    requires Accepted(t, inc) && |inc.files| == |inc.payload| && AdmitSelectionOk(t, inc)
    requires t.sel.Some? && PrerequisitePath(t.sel.value.path)
    requires forall i | 0 <= i < |inc.files| :: Idle(t, inc, i)
    requires NamesMain(t, inc, row.path) && !PrerequisitePath(row.path) && row.mode == Main(inc).meta.mode
    ensures var t1 := t.(sel := Some(row));
            Accepted(t1, inc) && AdmitSelectionOk(t1, inc) && AdmissionOf(t1, inc).repair.None? &&
            forall i | 0 <= i < |inc.files| :: Idle(t1, inc, i)
  {
    hide AdmitSelection, Accepted, Check, Present, MustGrow, NamesMain, PrerequisitePath, ValidIncoming, Fits, Idle,
         InventoryOf, Unrivalled, AllFit, CollisionFree, Lossless;
    var t1 := t.(sel := Some(row));
    AcceptedLossless(t, inc);
    AcceptedFacts(t, inc);
    RowThread(t, inc, row);
    NamedAgain(t, t1, inc, row.path);
    RowAdmitted(t1, inc, row);
    SameInventory(t, inc);
    AllFitAgain(t, t1, inc);
    CheckAccepts(t1, inc);
    NowAccepted(t1, inc);
    forall i | 0 <= i < |inc.files|
      ensures Idle(t1, inc, i)
    {
      StillIdle(t, t1, inc, i);
    }
  }

  lemma NamedAgain(t: Target, t1: Target, inc: Incoming, path: string)
    requires inc.files != [] && t1 == t.(sel := t1.sel) && NamesMain(t, inc, path)
    ensures NamesMain(t1, inc, path)
  {
    hide Listed, IdsOf, ValidRelative;
  }

  lemma AllFitAgain(t: Target, t1: Target, inc: Incoming)
    requires |inc.files| == |inc.payload| && t1 == t.(sel := t1.sel) && AdmitSelectionOk(t, inc) &&
             AdmitSelectionOk(t1, inc)
    requires AdmissionOf(t1, inc) == Admission(t.inv, None) && AdmissionOf(t, inc).inv == t.inv
    requires AllFit(t, inc, AdmissionOf(t, inc), 0)
    ensures AllFit(t1, inc, AdmissionOf(t1, inc), 0) && (t1.sel.Some? ==> Unrivalled(t1, inc, AdmissionOf(t1, inc)))
  {
    hide AdmitSelection, Fits, PrerequisitePath;
    forall i, c | 0 <= i < |inc.files| && c in t.inv && c.rollout == inc.files[i].rollout
      ensures Fits(t1, inc, i, c)
    {
      assert AllOf(t, inc, i, t.inv);
      SameWithRow(t, t1, inc, i, c);
    }
  }

  lemma StillIdle(t: Target, t1: Target, inc: Incoming, i: nat)
    requires i < |inc.files| == |inc.payload| && t1 == t.(sel := t1.sel) && AdmitSelectionOk(t, inc) &&
             AdmitSelectionOk(t1, inc)
    requires AdmissionOf(t1, inc).inv == AdmissionOf(t, inc).inv && Idle(t, inc, i)
    ensures Idle(t1, inc, i)
  {
    hide AdmitSelection, MustGrow, Usable;
    forall c | c in AdmissionOf(t1, inc).inv
      ensures !MustGrow(t1, inc, i, c)
    {
      SameWithRow(t, t1, inc, i, c);
    }
  }

  lemma NowAccepted(t: Target, inc: Incoming)
    requires ValidIncoming(t.w, t.limits, inc) && CollisionFree(t.w) && Lossless(t.w) && InventoryOf(t.tree, t.inv)
    requires 1 <= |inc.files| == |inc.payload| && Check(t, inc).Ok?
    ensures Accepted(t, inc)
  {
  }

  lemma RowThread(t: Target, inc: Incoming, row: Selection)
    requires Accepted(t, inc) && AdmitSelectionOk(t, inc) && NamesMain(t, inc, row.path)
    ensures IdsOf(row.path).thread == Main(inc).thread
  {
    hide AdmitSelection, Check, ParseName, ManagedPath, ValidRelative, ValidIncoming;
    ListedCandidate(t, inc, row.path);
    MainAccepted(t, inc, IdsOf(row.path));
  }

  /** A prerequisite row adds no candidates. */
  lemma SameInventory(t: Target, inc: Incoming)
    requires InventoryOf(t.tree, t.inv) && AdmitSelectionOk(t, inc)
    requires t.sel.Some? && PrerequisitePath(t.sel.value.path)
    ensures AdmissionOf(t, inc).inv == t.inv
  {
    hide ParseName, ManagedPath, PrerequisitePath, ValidRelative, RepairablePath, TrimSuffix, Filter;
    NoPrerequisiteForm(t, inc);
    assert t.inv + [] == t.inv;
  }

  lemma RepairedMode(t: Target, inc: Incoming)
    requires AdmitSelectionOk(t, inc) && t.sel.Some? && PrerequisitePath(t.sel.value.path)
    ensures Main(inc).meta.mode == "paginated"
  {
    hide ParseName, ManagedPath, PrerequisitePath, ValidRelative, TrimSuffix, Forms, PresentForms, SelectedCandidate;
  }

  lemma UnrepairedNone(t: Target, inc: Incoming)
    requires AdmitSelectionOk(t, inc) && !(t.sel.Some? && PrerequisitePath(t.sel.value.path))
    ensures AdmissionOf(t, inc).repair.None?
  {
    hide ParseName, ManagedPath, PrerequisitePath, ValidRelative, TrimSuffix, Forms, PresentForms, SelectedCandidate,
         RepairablePath;
  }

  lemma NextIdle(t: Target, inc: Incoming, stage: Stage, t1: Target)
    requires Accepted(t, inc) && StageFor(t.w, inc, Check(t, inc).value, stage)
    requires t1.tree == Apply(t.tree, StepsOf(t.w, inc, Check(t, inc).value, stage))
    requires inc.files != [] && |Check(t, inc).value| == |inc.files| && NextRun(t, inc, t1)
    ensures |inc.files| == |inc.payload| && Accepted(t1, inc) && AdmitSelectionOk(t1, inc)
    ensures AdmissionOf(t1, inc).repair.None? && forall i | 0 <= i < |inc.files| :: Idle(t1, inc, i)
  {
    hide AdmitSelection, Accepted, Check, StageFor, StepsOf, InventoryOf, Idle, PrerequisitePath, Listed, IdsOf,
         ValidRelative, Through, SecondLook, Apply;
    AcceptedShape(t, inc);
    var same := t1.(sel := t.sel);
    AllIdle(t, inc, stage, same);
    if t.sel.Some? && PrerequisitePath(t.sel.value.path) {
      ReportedMain(t, inc, stage, same);
      RepairedMode(t, inc);
      IdleWithRow(same, inc, t1.sel.value);
      assert same.(sel := t1.sel) == t1;
    } else {
      UnrepairedNone(same, inc);
      assert same == t1;
    }
  }

  /** Once a publication has run to its end, one more run of the same stream is accepted and reports no file as
      created, extended or promoted; it plans no step and no repair. */
  lemma RepeatReportsNothing(t: Target, inc: Incoming, stage: Stage, t1: Target)
    requires Accepted(t, inc) && StageFor(t.w, inc, Check(t, inc).value, stage)
    requires t1.tree == Apply(t.tree, StepsOf(t.w, inc, Check(t, inc).value, stage))
    requires inc.files != [] && |Check(t, inc).value| == |inc.files| && NextRun(t, inc, t1)
    ensures Check(t1, inc).Ok? && |Check(t1, inc).value| == |inc.files| && Repair(Check(t1, inc).value).None?
    ensures forall f | f in InstalledFiles(inc, Check(t1, inc).value) :: !f.created && !f.extended && !f.promoted
    ensures forall stage1 | StageFor(t1.w, inc, Check(t1, inc).value, stage1) ::
              StepsOf(t1.w, inc, Check(t1, inc).value, stage1) == []
  {
    hide AdmitSelection, Accepted, Check, StageFor, StepsOf, StepsUpTo, InventoryOf, NextRun, PrerequisitePath, Present,
         MustGrow, AllOf, Extensions, Apply;
    NextIdle(t, inc, stage, t1);
    AcceptedShape(t1, inc);
    var choices := Check(t1, inc).value;
    forall i | 0 <= i < |inc.files|
      ensures choices[i].present && choices[i].extensions == [] && choices[i].repair.None?
    {
      ChoiceAt(t1, inc, i);
      assert Idle(t1, inc, i);
      NoExtensions(t1, inc, i, AdmissionOf(t1, inc).inv);
    }
    forall stage1 | StageFor(t1.w, inc, choices, stage1)
      ensures StepsOf(t1.w, inc, choices, stage1) == []
    {
      IdleSteps(t1.w, inc, choices, stage1, |choices|);
      AllSteps(t1.w, inc, choices, stage1);
    }
  }

  // ---- what the report means ----

  lemma ChosenThere(t: Target, inc: Incoming, i: nat)
    requires Accepted(t, inc) && i < |inc.files| == |inc.payload|
    ensures Check(t, inc).Ok? && |Check(t, inc).value| == |inc.files|
    ensures Check(t, inc).value[i].present ==> Check(t, inc).value[i].path in t.tree
  {
    hide AdmitSelection, Accepted, Check, WeighAll, Compare, PrerequisitePath, Extensions;
    AcceptedFacts(t, inc);
    ChoiceAt(t, inc, i);
    var a, ch := AdmissionOf(t, inc), Check(t, inc).value[i];
    if ch.present {
      ChosenPath(t, inc, i, FreshChoice(inc, i, a.repair), a.inv);
      var c :| c in a.inv && Usable(inc, i, c) && c.path == ch.path;
      assert Fits(t, inc, i, c);
    }
  }

  lemma AbsentThere(t: Target, inc: Incoming, i: nat)
    requires Accepted(t, inc) && i < |inc.files| == |inc.payload| && AdmitSelectionOk(t, inc)
    requires !Present(inc, AdmissionOf(t, inc), i)
    ensures inc.files[i].path !in t.tree
  {
    hide AdmitSelection, Accepted, Check, ParseName, ManagedPath, PrerequisitePath, Present, Describes, ValidIncoming,
         Visible;
    AcceptedLossless(t, inc);
    ValidAt(t.w, t.limits, inc, i);
    if inc.files[i].path in t.tree {
      AbsentMeans(t, inc, i, inc.files[i].path);
    }
  }

  lemma ExtendsSome(t: Target, inc: Incoming, i: nat)
    requires Accepted(t, inc) && i < |inc.files| == |inc.payload| && AdmitSelectionOk(t, inc)
    ensures Check(t, inc).Ok? && |Check(t, inc).value| == |inc.files|
    ensures Check(t, inc).value[i].extensions != [] <==> exists c | c in AdmissionOf(t, inc).inv :: MustGrow(t, inc, i,
            c)
  {
    hide AdmitSelection, Accepted, Check, WeighAll, Compare, PrerequisitePath, AllOf, Present;
    AcceptedShape(t, inc);
    ChoiceAt(t, inc, i);
    var a, e := AdmissionOf(t, inc), Check(t, inc).value[i].extensions;
    ExtensionsAre(t, inc, i, a.inv);
    if e != [] {
      assert e[0] in e;
    }
  }

  /** The report of a publication is about storage: a file is reported as created exactly when its path did not exist,
      and as extended exactly when it is a prefix of which some representation was too short. */
  lemma ReportMeans(t: Target, inc: Incoming, i: nat)
    requires Accepted(t, inc) && i < |inc.files| == |inc.payload| && AdmitSelectionOk(t, inc)
    ensures Check(t, inc).Ok? && |Check(t, inc).value| == |inc.files|
    ensures var f := InstalledFiles(inc, Check(t, inc).value)[i];
            f.rollout == inc.files[i].rollout && f.prefix == inc.files[i].prefix &&
            (f.created <==> f.path !in t.tree) &&
            (f.extended <==> inc.files[i].prefix && exists c | c in AdmissionOf(t, inc).inv :: MustGrow(t, inc, i, c))
  {
    hide AdmitSelection, Accepted, Check, MustGrow, Present, AllOf, Extensions;
    ChosenThere(t, inc, i);
    ExtendsSome(t, inc, i);
    ChoiceAt(t, inc, i);
    if !Check(t, inc).value[i].present {
      AbsentThere(t, inc, i);
    }
  }
}
