// What a publication reports, by what was stored and what the row said: publish of internal/session/publish.go.

module Reports {
  import opened Model
  import opened Format
  import opened Inspect
  import opened Lineage
  import opened Conflicts
  import opened Steps
  import opened Comparison
  import opened Planning
  import opened Acceptance
  import opened Retry
  import opened Publisher
  import opened Repetition

  /** A stored representation that is grown. */
  predicate Grown(t: Target, inc: Incoming, i: nat, c: Candidate)
    requires i < |inc.files| == |inc.payload|
  {
    c.path in t.tree && Continuable(t.w, t.limits, inc, i, t.tree[c.path], c)
  }

  ghost predicate SomeGrown(t: Target, inc: Incoming, i: nat)
    requires i < |inc.files| == |inc.payload|
  {
    exists c: Candidate :: c.rollout == inc.files[i].rollout && Stored(t, inc, c) && Grown(t, inc, i, c)
  }

  /** A managed prerequisite of the rollout is stored. */
  ghost predicate SomePrerequisite(t: Target, inc: Incoming, i: nat)
    requires i < |inc.files|
  {
    exists c: Candidate :: c.rollout == inc.files[i].rollout && Stored(t, inc, c) && PrerequisitePath(c.path)
  }

  ghost predicate SomeStored(t: Target, inc: Incoming, i: nat)
    requires i < |inc.files|
  {
    exists c: Candidate :: Usable(inc, i, c) && Stored(t, inc, c)
  }

  ghost predicate StoredAt(t: Target, inc: Incoming, i: nat, path: string)
    requires i < |inc.files|
  {
    exists c: Candidate :: Usable(inc, i, c) && Stored(t, inc, c) && c.path == path
  }

  lemma GrownExactly(t: Target, inc: Incoming, i: nat, c: Candidate)
    requires Accepted(t, inc) && i < |inc.files| == |inc.payload| && AdmitSelectionOk(t, inc)
    requires c.rollout == inc.files[i].rollout && c in AdmissionOf(t, inc).inv
    ensures MustGrow(t, inc, i, c) <==> Grown(t, inc, i, c)
  {
    hide AdmitSelection, Check, Compare, Continuable, ValidIncoming, CollisionFree, Lossless, InventoryOf, Sufficient;
    AcceptedFacts(t, inc);
    assert AllOf(t, inc, i, AdmissionOf(t, inc).inv);
    assert Fits(t, inc, i, c);
    CompareExactly(t.w, t.limits, inc, i, t.tree[c.path], c);
  }

  /** The report of a complete publication, exactly. */
  ghost predicate Reported(t: Target, inc: Incoming, rep: Report)
    requires 1 <= |inc.files| == |inc.payload|
  {
    var n := |inc.files|;
    rep.thread == inc.thread && rep.meta == inc.files[n - 1].meta && |rep.files| == n &&
    rep.mainPath == rep.files[n - 1].path && (rep.archived <==> HasPrefix(rep.mainPath, "archived_sessions/")) &&
    (rep.repaired <==> t.sel.Some? && PrerequisitePath(t.sel.value.path)) &&
    forall i | 0 <= i < n :: FileReported(t, inc, i, rep.files[i], rep.repaired)
  }

  /** One file: created where its path was free, extended where a stored prefix of it was grown, promoted where a
      managed prerequisite of the complete conversation is left behind and something was done about it; reported under a
      stored path that counts as present, or else under its own. */
  ghost predicate FileReported(t: Target, inc: Incoming, i: nat, f: InstalledFile, repaired: bool)
    requires i < |inc.files| == |inc.payload|
  {
    f.rollout == inc.files[i].rollout && f.prefix == inc.files[i].prefix && (f.created <==> f.path !in t.tree) &&
    (f.extended <==> f.prefix && SomeGrown(t, inc, i)) &&
    (f.promoted <==> !f.prefix && SomePrerequisite(t, inc, i) && (f.created || SomeGrown(t, inc, i) || repaired)) &&
    if SomeStored(t, inc, i) then StoredAt(t, inc, i, f.path) else f.path == inc.files[i].path
  }

  lemma StoredIn(t: Target, inc: Incoming)
    requires Accepted(t, inc) && inc.files != [] && AdmitSelectionOk(t, inc)
    ensures forall c: Candidate :: c in AdmissionOf(t, inc).inv <==> Stored(t, inc, c)
  {
    hide AdmitSelection, Check, ValidIncoming, CollisionFree, Lossless, InventoryOf, Stored;
    forall c: Candidate
      ensures c in AdmissionOf(t, inc).inv <==> Stored(t, inc, c)
    {
      CandidatesExactly(t, inc, c);
    }
  }

  /** The path of a file: that of a stored representation under which it counts as present, or else its own. */
  lemma PathExactly(t: Target, inc: Incoming, i: nat)
    requires Accepted(t, inc) && i < |inc.files| == |inc.payload|
    ensures Check(t, inc).Ok? && |Check(t, inc).value| == |inc.files|
    ensures var ch := Check(t, inc).value[i];
            (ch.present <==> SomeStored(t, inc, i)) &&
            if ch.present then StoredAt(t, inc, i, ch.path) else ch.path == inc.files[i].path
  {
    hide AdmitSelection, Accepted, Check, Extensions, AllOf, Stored, Usable, WeighAll, FreshChoice;
    AcceptedFacts(t, inc);
    ChoiceAt(t, inc, i);
    StoredIn(t, inc);
    NotPresentYet(inc, i, AdmissionOf(t, inc).repair);
    if Check(t, inc).value[i].present {
      ChosenPath(t, inc, i, FreshChoice(inc, i, AdmissionOf(t, inc).repair), AdmissionOf(t, inc).inv);
    }
  }

  lemma NotPresentYet(inc: Incoming, i: nat, repair: Option<Selection>)
    requires i < |inc.files|
    ensures !FreshChoice(inc, i, repair).present
  {
  }

  lemma GrowthExactly(t: Target, inc: Incoming, i: nat)
    requires Accepted(t, inc) && i < |inc.files| == |inc.payload|
    ensures Check(t, inc).Ok? && |Check(t, inc).value| == |inc.files|
    ensures Check(t, inc).value[i].extensions != [] <==> SomeGrown(t, inc, i)
  {
    hide AdmitSelection, Accepted, Check, MustGrow, Stored, Grown;
    AcceptedFacts(t, inc);
    ExtendsSome(t, inc, i);
    StoredIn(t, inc);
    var inv := AdmissionOf(t, inc).inv;
    forall c: Candidate | c in inv && c.rollout == inc.files[i].rollout
      ensures MustGrow(t, inc, i, c) <==> Grown(t, inc, i, c)
    {
      GrownExactly(t, inc, i, c);
    }
    forall c | c in inv && MustGrow(t, inc, i, c)
      ensures c.rollout == inc.files[i].rollout
    {
      GrowsItsRollout(t, inc, i, c);
    }
  }

  lemma GrowsItsRollout(t: Target, inc: Incoming, i: nat, c: Candidate)
    requires i < |inc.files| == |inc.payload| && MustGrow(t, inc, i, c)
    ensures c.rollout == inc.files[i].rollout
  {
    hide Compare;
  }

  lemma PromotionExactly(t: Target, inc: Incoming, i: nat)
    requires Accepted(t, inc) && i < |inc.files| == |inc.payload|
    ensures Check(t, inc).Ok? && |Check(t, inc).value| == |inc.files|
    ensures Check(t, inc).value[i].promoted <==> !inc.files[i].prefix && SomePrerequisite(t, inc, i)
  {
    hide AdmitSelection, Accepted, Check, Extensions, AllOf, Stored, PrerequisitePath, Present;
    AcceptedFacts(t, inc);
    ChoiceAt(t, inc, i);
    StoredIn(t, inc);
  }

  lemma FileExactly(t: Target, inc: Incoming, i: nat)
    requires Accepted(t, inc) && i < |inc.files| == |inc.payload|
    ensures Check(t, inc).Ok? && |Check(t, inc).value| == |inc.files|
    ensures FileReported(t, inc, i, Installed(inc.files[i], Check(t, inc).value[i]),
                         t.sel.Some? && PrerequisitePath(t.sel.value.path))
  {
    hide AdmitSelection, Accepted, Check, MustGrow, Present, AllOf, Extensions, PrerequisitePath, SomeGrown;
    hide SomePrerequisite, SomeStored, StoredAt;
    AcceptedFacts(t, inc);
    ChoiceAt(t, inc, i);
    ReportMeans(t, inc, i);
    PathExactly(t, inc, i);
    GrowthExactly(t, inc, i);
    PromotionExactly(t, inc, i);
    RepairIs(t, inc);
  }

  lemma RepairIs(t: Target, inc: Incoming)
    requires Accepted(t, inc) && inc.files != [] && AdmitSelectionOk(t, inc)
    ensures AdmissionOf(t, inc).repair == if t.sel.Some? && PrerequisitePath(t.sel.value.path) then t.sel else None
  {
    hide AdmitSelection, Check, ValidIncoming, CollisionFree, Lossless, InventoryOf, RowStands, PrerequisitePath;
    RowExactly(t, inc);
  }

  /** What publish reports of a complete publication, exactly: for every file and for the conversation. */
  lemma ReportExactly(t: Target, inc: Incoming)
    requires Accepted(t, inc)
    ensures 1 <= |inc.files| == |inc.payload| && Check(t, inc).Ok? && |Check(t, inc).value| == |inc.files|
    ensures Reported(t, inc, ReportOf(inc, Check(t, inc).value))
  {
    hide Accepted, Check, FileReported, PrerequisitePath, AdmitSelection, Installed;
    AcceptedFacts(t, inc);
    LastRepaired(t, inc);
    LastComplete(t, inc);
    forall i | 0 <= i < |inc.files|
      ensures FileReported(t, inc, i, Installed(inc.files[i], Check(t, inc).value[i]),
                           t.sel.Some? && PrerequisitePath(t.sel.value.path))
    {
      FileExactly(t, inc, i);
    }
    PathInstalled(inc, Check(t, inc).value);
  }

  lemma PathInstalled(inc: Incoming, choices: seq<Choice>)
    requires |choices| == |inc.files| > 0
    ensures Installed(inc.files[|choices| - 1], choices[|choices| - 1]).path == choices[|choices| - 1].path
  {
  }

  lemma LastRepaired(t: Target, inc: Incoming)
    requires Accepted(t, inc)
    ensures Check(t, inc).Ok? && |Check(t, inc).value| == |inc.files| > 0
    ensures Publisher.Repair(Check(t, inc).value).Some? <==> t.sel.Some? && PrerequisitePath(t.sel.value.path)
  {
    hide Accepted, Check, PrerequisitePath, AdmitSelection, Extensions, AllOf, Present;
    AcceptedFacts(t, inc);
    LastComplete(t, inc);
    ChoiceAt(t, inc, |inc.files| - 1);
    RepairIs(t, inc);
  }

  lemma LastComplete(t: Target, inc: Incoming)
    requires Accepted(t, inc)
    ensures inc.files != [] && !inc.files[|inc.files| - 1].prefix && Main(inc) == inc.files[|inc.files| - 1]
  {
    hide Check, ValidFile, Joined, Distinct, CollisionFree, Lossless, InventoryOf;
  }
}
