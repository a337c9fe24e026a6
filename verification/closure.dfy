// What a destination holds when publication stops part-way, and when it has finished: internal/session/publish.go.

module Closure {
  import opened Model
  import opened Format
  import opened Rollout
  import opened Inspect
  import opened Lineage
  import opened Conflicts
  import opened Steps
  import opened Schedule
  import opened Comparison
  import opened Planning
  import opened Publication
  import opened Retry
  import opened Convergence
  import opened EndToEnd

  lemma IdleAgain(t: Target, t1: Target, inc: Incoming, n: nat, i: nat)
    requires SecondLook(t, t1, inc) && i < n <= |inc.files| && Through(t, inc, t1.tree, n)
    ensures |inc.files| == |inc.payload| && Accepted(t1, inc) && AdmitSelectionOk(t1, inc) && Idle(t1, inc, i)
  {
    hide AdmitSelection, Check, Accepted, InventoryOf, Dealt, Present, Underway, MustGrow, SecondLook;
    InLook(t, t1, inc);
    SecondAccepted(t, t1, inc);
    PresentThrough(t, t1, inc, n, i);
    forall c | c in AdmissionOf(t1, inc).inv
      ensures !MustGrow(t1, inc, i, c)
    {
      NothingGrows(t, t1, inc, n, i, c);
    }
  }

  lemma SecondAccepted(t: Target, t1: Target, inc: Incoming)
    requires SecondLook(t, t1, inc)
    ensures Accepted(t1, inc) && AdmitSelectionOk(t1, inc) && |inc.files| == |inc.payload| && AdmitSelectionOk(t, inc)
    ensures AdmissionOf(t1, inc).inv == t1.inv + ExtraOf(t, inc)
  {
    hide AdmitSelection, Check, Accepted, InventoryOf, Underway;
    AcceptedAgain(t, t1, inc);
  }

  lemma PresentThrough(t: Target, t1: Target, inc: Incoming, n: nat, i: nat)
    requires SecondLook(t, t1, inc) && i < n <= |inc.files| && Through(t, inc, t1.tree, n) && AdmitSelectionOk(t1, inc)
    requires AdmissionOf(t1, inc).inv == t1.inv + ExtraOf(t, inc)
    ensures Present(inc, AdmissionOf(t1, inc), i)
  {
    hide AdmitSelection, Accepted, InventoryOf, Dealt, Present, Underway, MustGrow;
    PresentAgainLook(t, t1, inc, i);
  }

  // ---- crash closure ----

  /** A path that changed was changed by the step of its own file, so the steps of all earlier files had been made. */
  lemma ChangedBy(t: Target, inc: Incoming, stage: Stage, k: nat, p: string) returns (i: nat)
    requires Accepted(t, inc) && StageFor(t.w, inc, Check(t, inc).value, stage)
    requires k <= |StepsOf(t.w, inc, Check(t, inc).value, stage)|
    requires var tree := Apply(t.tree, StepsOf(t.w, inc, Check(t, inc).value, stage)[..k]);
             p in tree && (p !in t.tree || tree[p] != t.tree[p])
    ensures i < |inc.files| <= |Check(t, inc).value| && IndexOf(inc, p) == Some(i)
    ensures |StepsUpTo(t.w, inc, Check(t, inc).value, stage, i)| <= k
  {
    hide AdmitSelection, Accepted, Check, StepsUpTo, StageFor, Compatible, Planned, StepsOf, Distinct, IndexOf,
         ValidIncoming;
    AcceptedShape(t, inc);
    AcceptedLossless(t, inc);
    DistinctOf(t, inc);
    var choices := Check(t, inc).value;
    AllSteps(t.w, inc, choices, stage);
    var steps := StepsOf(t.w, inc, choices, stage);
    StepsUpToInOrder(t, inc, stage, |inc.files|);
    InOrderDistinct(t.w, steps, k);
    ApplyAt(t.tree, steps[..k], p);
    var m :| 0 <= m < k && steps[..k][m].path == p;
    assert steps[m] in steps;
    i :| 0 <= i < |inc.files| && Planned(t, inc, i, steps[m]);
    PlannedIndex(t, inc, i, steps[m]);
    var first := StepsUpTo(t.w, inc, choices, stage, i);
    if k < |first| {
      StepsUpToPrefix(t.w, inc, choices, stage, i, |choices|);
      assert first[m] == steps[m] && first[m] in first;
      StepsUpToInOrder(t, inc, stage, i);
      var j :| 0 <= j < i && Planned(t, inc, j, steps[m]);
      PlannedIndex(t, inc, j, steps[m]);
    }
  }

  lemma PlannedIndex(t: Target, inc: Incoming, i: nat, s: Step)
    requires i < |inc.files| == |inc.payload| && AdmitSelectionOk(t, inc) && Planned(t, inc, i, s) &&
             Distinct(inc.files)
    ensures IndexOf(inc, s.path) == Some(i)
  {
    hide AdmitSelection, Listed, IdsOf, Visible, Encode, MustGrow, Present, Distinct, IndexOf;
    IndexIs(inc, s.path, i);
  }

  /** Crash closure: stop a publication after any number of steps. Whatever file has been installed or has grown, every
      rollout it inherits from is at the destination, and every representation of it can be read at the exact cutoff
      where the next one continues, with the bytes, digest and metadata of the incoming file. */
  lemma CrashClosure(t: Target, inc: Incoming, stage: Stage, k: nat, t1: Target, p: string)
    requires Accepted(t, inc) && StageFor(t.w, inc, Check(t, inc).value, stage)
    requires k <= |StepsOf(t.w, inc, Check(t, inc).value, stage)|
    requires t1.tree == Apply(t.tree, StepsOf(t.w, inc, Check(t, inc).value, stage)[..k])
    requires InventoryOf(t1.tree, t1.inv) && Again(t, t1)
    requires p in t1.tree && (p !in t.tree || t1.tree[p] != t.tree[p])
    ensures IndexOf(inc, p).Some?
    ensures forall j | 0 <= j < IndexOf(inc, p).value :: Reachable(t1, inc, j)
  {
    hide AdmitSelection, Accepted, Check, StepsUpTo, StageFor, StepsOf, InventoryOf, Underway, Through, Reachable,
         IndexOf, Idle;
    var i := ChangedBy(t, inc, stage, k, p);
    StopsUnderway(t, inc, stage, k);
    StepsThrough(t, inc, stage, k, i);
    forall j | 0 <= j < i
      ensures Reachable(t1, inc, j)
    {
      IdleAgain(t, t1, inc, i, j);
      NotLast(t, inc, i, j);
      IdleReachable(t1, inc, j);
    }
  }

  lemma NotLast(t: Target, inc: Incoming, i: nat, j: nat)
    requires Accepted(t, inc) && j < i < |inc.files|
    ensures inc.files[j].prefix
  {
    hide Check, ValidIncoming, InventoryOf;
    PrefixUnlessLast(t.w, t.limits, inc, j);
  }

  // ---- the end ----

  lemma AllIdle(t: Target, inc: Incoming, stage: Stage, t1: Target)
    requires Accepted(t, inc) && StageFor(t.w, inc, Check(t, inc).value, stage)
    requires t1.tree == Apply(t.tree, StepsOf(t.w, inc, Check(t, inc).value, stage))
    requires InventoryOf(t1.tree, t1.inv) && Again(t, t1)
    ensures |inc.files| == |inc.payload| && AdmitSelectionOk(t, inc) && Through(t, inc, t1.tree, |inc.files|)
    ensures Accepted(t1, inc) && AdmitSelectionOk(t1, inc) && SecondLook(t, t1, inc)
    ensures forall i | 0 <= i < |inc.files| :: Idle(t1, inc, i)
  {
    hide AdmitSelection, Accepted, Check, StageFor, StepsOf, InventoryOf, Underway, Through, Idle;
    AllStepsComplete(t, inc, stage);
    CompleteUnderway(t, inc, t1.tree);
    SecondAccepted(t, t1, inc);
    forall i | 0 <= i < |inc.files|
      ensures Idle(t1, inc, i)
    {
      IdleAgain(t, t1, inc, |inc.files|, i);
    }
  }

  /** End-to-end meaning: after a publication, whatever mixture of representations the destination held before, and
      with no row or any consistent one, inspection resolves the thread to the incoming rollouts, sizes, digests and
      prefix flags, prerequisites first. */
  lemma PublishedResolves(t: Target, inc: Incoming, stage: Stage, t1: Target, sel: Option<Selection>)
    requires Accepted(t, inc) && StageFor(t.w, inc, Check(t, inc).value, stage)
    requires t1.tree == Apply(t.tree, StepsOf(t.w, inc, Check(t, inc).value, stage))
    requires InventoryOf(t1.tree, t1.inv) && Again(t, t1) && inc.files != [] && ConsistentRow(t1, inc, sel)
    ensures var r := Resolve(Look(t1), inc.thread, sel, sel);
            r.Ok? && r.value.thread == inc.thread && SameLineage(inc.files, r.value.files)
  {
    hide AdmitSelection, Accepted, Check, StageFor, StepsOf, InventoryOf, Idle, ConsistentRow, Resolve, SameLineage,
         Through, SecondLook;
    AllIdle(t, inc, stage, t1);
    IdleResolves(t1, inc, sel);
  }

  /** The main path a publication reports: a stored representation of the complete conversation, so that a row naming
      it is consistent. */
  lemma ReportedMain(t: Target, inc: Incoming, stage: Stage, t1: Target)
    requires Accepted(t, inc) && StageFor(t.w, inc, Check(t, inc).value, stage)
    requires t1.tree == Apply(t.tree, StepsOf(t.w, inc, Check(t, inc).value, stage))
    requires InventoryOf(t1.tree, t1.inv) && Again(t, t1)
    requires t.sel.Some? ==> PrerequisitePath(t.sel.value.path)
    ensures inc.files != [] && Check(t, inc).Ok? && |Check(t, inc).value| == |inc.files|
    ensures var path := Check(t, inc).value[|inc.files| - 1].path;
            path in t1.tree && Listed(path) && IdsOf(path).rollout == Main(inc).rollout && !PrerequisitePath(path)
  {
    hide AdmitSelection, Accepted, Check, StageFor, StepsOf, Underway, ParseName, ManagedPath, PrerequisitePath,
         Describes, Joined, Distinct, WeighAll, SecondLook, Idle, MustGrow, Extensions, AllOf, Through, Present;
    AllIdle(t, inc, stage, t1);
    AcceptedLossless(t, inc);
    AcceptedFacts(t, inc);
    var n := |inc.files| - 1;
    ChoiceAt(t, inc, n);
    PrefixUnlessLast(t.w, t.limits, inc, n);
    if Check(t, inc).value[n].present {
      ChosenPath(t, inc, n, FreshChoice(inc, n, AdmissionOf(t, inc).repair), AdmissionOf(t, inc).inv);
      var c :| c in AdmissionOf(t, inc).inv && Usable(inc, n, c) && c.path == Check(t, inc).value[n].path;
      AdmittedListed(t, inc, c);
      KeptPath(t, inc, t1, c.path);
    } else {
      ValidAt(t.w, t.limits, inc, n);
      MainInstalled(t, inc, t1);
    }
  }

  lemma AdmittedListed(t: Target, inc: Incoming, c: Candidate)
    requires InventoryOf(t.tree, t.inv) && AdmitSelectionOk(t, inc) && c in AdmissionOf(t, inc).inv
    requires t.sel.Some? ==> PrerequisitePath(t.sel.value.path)
    ensures c.path in t.tree && Listed(c.path) && IdsOf(c.path) == c
  {
    hide ParseName, ManagedPath, PrerequisitePath, ValidRelative, RepairablePath, TrimSuffix, Filter;
    if t.sel.Some? {
      var path := t.sel.value.path;
      if Forms(t.inv, path) == [] {
        NoPrerequisiteForm(t, inc);
      }
    }
    ListedIn(t, c);
  }

  lemma ListedIn(t: Target, c: Candidate)
    requires InventoryOf(t.tree, t.inv)
    ensures c in t.inv ==> c.path in t.tree && Listed(c.path) && IdsOf(c.path) == c
  {
    hide ParseName, ManagedPath;
  }

  /** A prerequisite row always names a listed file. */
  lemma NoPrerequisiteForm(t: Target, inc: Incoming)
    requires InventoryOf(t.tree, t.inv) && AdmitSelectionOk(t, inc) && t.sel.Some? && PrerequisitePath(t.sel.value.path)
    ensures Forms(t.inv, t.sel.value.path) != []
  {
    hide AdmitSelection, ParseName, ManagedPath, PrerequisitePath, ValidRelative, RepairablePath, TrimSuffix, Filter;
    if Forms(t.inv, t.sel.value.path) == [] {
      AdmittedForms(t, inc);
      AdmissionFacts(t, inc);
      var d := AdmissionOf(t, inc).inv[|t.inv|];
      assert d == ExtraOf(t, inc)[0];
      assert Added(t, inc, d);
      FormsAlike(d.path, t.sel.value.path);
    }
  }

  lemma KeptPath(t: Target, inc: Incoming, t1: Target, p: string)
    requires |inc.files| == |inc.payload| && AdmitSelectionOk(t, inc) && Through(t, inc, t1.tree, |inc.files|)
    ensures p in t.tree ==> p in t1.tree
  {
    hide AdmitSelection, Dealt, Present, MustGrow, IndexOf, IdsOf;
  }

  lemma MainInstalled(t: Target, inc: Incoming, t1: Target)
    requires inc.files != [] && |inc.files| == |inc.payload| && AdmitSelectionOk(t, inc) &&
             Through(t, inc, t1.tree, |inc.files|)
    requires !Present(inc, AdmissionOf(t, inc), |inc.files| - 1)
    ensures Main(inc).path in t1.tree
  {
    hide AdmitSelection, Dealt, Present, MustGrow, IndexOf, IdsOf, Underway;
  }
}
