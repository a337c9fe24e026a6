// Which destinations a publication is accepted at, by what is stored and what the row says:
// checkConflicts of internal/session/publish.go.

module Acceptance {
  import opened Model
  import opened Format
  import opened Rollout
  import opened Inspect
  import opened Lineage
  import opened Conflicts
  import opened Steps
  import opened Schedule
  import opened Comparison
  import opened Planning

  /** The row's file is there, plain or compressed. */
  predicate FileThere(tree: Tree, path: string) {
    TrimSuffix(path, ".zst") in tree || TrimSuffix(path, ".zst") + ".zst" in tree
  }

  /** The row names the incoming conversation itself: by the identities in its name, or, for a legacy conversation
      without a rollout of its own, by a name that carries none. */
  predicate NamesMain(sel: Selection, main: File) {
    match ParseName(sel.path)
    case Some(c) => c.thread == main.thread && c.rollout == main.rollout
    case None => sel.mode == "legacy" && main.rollout == main.thread
  }

  /** The row names a prerequisite at its own place that a paginated incoming lineage of the thread contains. */
  predicate NamesPrerequisite(sel: Selection, inc: Incoming)
    requires inc.files != []
  {
    sel.mode == "paginated" && ParseName(sel.path).Some? &&
    var c, plain := ParseName(sel.path).value, TrimSuffix(sel.path, ".zst");
    c.thread == Main(inc).thread &&
    (exists f | f in inc.files :: f.thread == c.thread && f.rollout == c.rollout) &&
    plain == "archived_sessions/.hcorral-history/" + c.rollout + "/" + Base(plain)
  }

  /** A row the publication can stand beside. */
  predicate RowStands(t: Target, inc: Incoming, sel: Selection)
    requires inc.files != []
  {
    ValidRelative(sel.path) && (HasPrefix(sel.path, "sessions/") || HasPrefix(sel.path, "archived_sessions/")) &&
    (HasSuffix(sel.path, ".jsonl") || HasSuffix(sel.path, ".jsonl.zst")) &&
    sel.mode == Main(inc).meta.mode && FileThere(t.tree, sel.path) &&
    if HasPrefix(sel.path, "archived_sessions/.hcorral-history/") then NamesPrerequisite(sel, inc)
    else NamesMain(sel, Main(inc))
  }

  /** Where no row vouches for a conversation, no other complete rollout of the thread is stored. */
  predicate NoRival(t: Target, inc: Incoming)
    requires inc.files != []
  {
    (t.sel.None? || PrerequisitePath(t.sel.value.path)) ==>
      forall p | p in t.tree && Listed(p) && IdsOf(p).thread == Main(inc).thread && !PrerequisitePath(p) ::
        IdsOf(p).rollout == Main(inc).rollout
  }

  /** A stored representation: a listed file under the identities of its name, or the file of a legacy row whose name
      carries none under those of the thread. */
  predicate Stored(t: Target, inc: Incoming, c: Candidate)
    requires inc.files != []
  {
    c.path in t.tree &&
    ((Listed(c.path) && ParseName(c.path) == Some(c)) ||
     (t.sel.Some? && ParseName(t.sel.value.path).None? && c.thread == c.rollout == Main(inc).thread &&
      TrimSuffix(c.path, ".zst") == TrimSuffix(t.sel.value.path, ".zst")))
  }

  /** Every stored representation of every incoming rollout can be worked with. */
  ghost predicate StoredWorkable(t: Target, inc: Incoming)
    requires 1 <= |inc.files| == |inc.payload|
  {
    forall i, c: Candidate | 0 <= i < |inc.files| && c.rollout == inc.files[i].rollout && Stored(t, inc, c) ::
      Workable(t, inc, i, c)
  }

  // ---- the row ----

  lemma FormsThere(t: Target, path: string, c: Candidate)
    requires InventoryOf(t.tree, t.inv) && SelectablePath(path)
    ensures Forms(t.inv, path) != [] || PresentForms(t.tree, path, c) != [] <==> FileThere(t.tree, path)
  {
    hide ParseName, ManagedPath, ValidRelative, TrimSuffix, Filter;
    if Forms(t.inv, path) != [] {
      var d := Forms(t.inv, path)[0];
      assert d in Forms(t.inv, path);
      SelectableForms(path);
      FormPaths(path, d.path);
    }
  }

  lemma FormPaths(path: string, p: string)
    requires TrimSuffix(p, ".zst") == TrimSuffix(path, ".zst")
    ensures p == TrimSuffix(path, ".zst") || p == TrimSuffix(path, ".zst") + ".zst"
  {
    JoinTrimmed(p, ".zst");
  }

  lemma MainIn(inc: Incoming)
    requires inc.files != []
    ensures Main(inc) in inc.files
  {
  }

  /** The row is admitted exactly when the publication can stand beside it. */
  lemma RowExactly(t: Target, inc: Incoming)
    requires InventoryOf(t.tree, t.inv) && inc.files != []
    ensures AdmitSelection(t, inc).Ok? <==> (t.sel.Some? ==> RowStands(t, inc, t.sel.value))
    ensures AdmitSelection(t, inc).Ok? ==>
              AdmissionOf(t, inc).repair ==
              if t.sel.Some? && PrerequisitePath(t.sel.value.path) then t.sel else None
  {
    hide ParseName, ValidRelative, TrimSuffix, Base, Forms, PresentForms, FileThere;
    if t.sel.Some? && SelectablePath(t.sel.value.path) {
      var sel := t.sel.value;
      var c := SelectedCandidate(sel, Main(inc));
      if c.Some? {
        FormsThere(t, sel.path, c.value);
      }
    }
  }

  // ---- the candidates ----

  /** Where the row's name carries no identities its forms are in no inventory. */
  lemma NamelessForms(t: Target, path: string, s: Candidate, c: Candidate)
    requires InventoryOf(t.tree, t.inv) && SelectablePath(path) && ParseName(path).None?
    ensures Forms(t.inv, path) == []
    ensures c in PresentForms(t.tree, path, s) <==>
            c.path in t.tree && TrimSuffix(c.path, ".zst") == TrimSuffix(path, ".zst") && c.thread == s.thread &&
            c.rollout == s.rollout
  {
    hide ParseName, ManagedPath, ValidRelative, Filter;
    SelectableForms(path);
    if Forms(t.inv, path) != [] {
      var d := Forms(t.inv, path)[0];
      assert d in Forms(t.inv, path);
      FormsAlike(d.path, path);
    }
    FormsOf(path, TrimSuffix(path, ".zst"));
    FormsOf(path, TrimSuffix(path, ".zst") + ".zst");
    if TrimSuffix(c.path, ".zst") == TrimSuffix(path, ".zst") {
      FormPaths(path, c.path);
    }
    hide TrimSuffix;
    var plain := TrimSuffix(path, ".zst");
    if c.path in t.tree && TrimSuffix(c.path, ".zst") == plain && c.thread == s.thread && c.rollout == s.rollout {
      assert c == Candidate(c.path, s.thread, s.rollout);
    }
  }

  /** Where it does, whatever form is there is listed. */
  lemma NamedForms(t: Target, path: string, s: Candidate)
    requires InventoryOf(t.tree, t.inv) && SelectablePath(path) && ParseName(path).Some?
    ensures Forms(t.inv, path) == [] ==> PresentForms(t.tree, path, s) == []
  {
    hide ParseName, ManagedPath, ValidRelative, TrimSuffix, Filter;
    SelectableForms(path);
    if PresentForms(t.tree, path, s) != [] {
      var d := PresentForms(t.tree, path, s)[0];
      assert d in PresentForms(t.tree, path, s);
      FormsOf(path, d.path);
      FormsAlike(d.path, path);
      ListedForm(t, path, d.path);
    }
  }

  /** The candidates the check weighs are the stored representations. */
  lemma CandidatesExactly(t: Target, inc: Incoming, c: Candidate)
    requires InventoryOf(t.tree, t.inv) && inc.files != [] && AdmitSelection(t, inc).Ok?
    ensures c in AdmissionOf(t, inc).inv <==> Stored(t, inc, c)
  {
    hide ParseName, ManagedPath, PrerequisitePath, ValidRelative, RepairablePath, TrimSuffix, PresentForms, Forms;
    assert c in t.inv <==> c.path in t.tree && Listed(c.path) && ParseName(c.path) == Some(c);
    if t.sel.Some? {
      var path := t.sel.value.path;
      var s := SelectedCandidate(t.sel.value, Main(inc)).value;
      var added := if Forms(t.inv, path) == [] then PresentForms(t.tree, path, s) else [];
      assert AdmissionOf(t, inc).inv == t.inv + added;
      if ParseName(path).None? {
        NamelessForms(t, path, s, c);
      } else {
        NamedForms(t, path, s);
      }
    }
  }

  lemma RivalsExactly(t: Target, inc: Incoming)
    requires InventoryOf(t.tree, t.inv) && inc.files != [] && AdmitSelection(t, inc).Ok?
    ensures Unrivalled(t, inc, AdmissionOf(t, inc)) <==> NoRival(t, inc)
  {
    hide ParseName, ManagedPath, PrerequisitePath, AdmitSelection, RowStands;
    RowExactly(t, inc);
    var a := AdmissionOf(t, inc);
    forall c: Candidate
      ensures c in a.inv <==> Stored(t, inc, c)
    {
      CandidatesExactly(t, inc, c);
    }
    if Unrivalled(t, inc, a) {
      forall p | p in t.tree && Listed(p)
        ensures IdsOf(p) in a.inv && IdsOf(p).path == p
      {
        PathOfIds(p);
      }
    }
    if NoRival(t, inc) && (t.sel.None? || a.repair.Some?) {
      forall c | c in a.inv && c.thread == Main(inc).thread && !PrerequisitePath(c.path)
        ensures c.rollout == Main(inc).rollout
      {
        if t.sel.Some? && ParseName(t.sel.value.path).None? {
          PrerequisiteNamed(t, inc);
        }
      }
    }
  }

  /** A prerequisite row that is admitted has a rollout name. */
  lemma PrerequisiteNamed(t: Target, inc: Incoming)
    requires inc.files != [] && t.sel.Some? && PrerequisitePath(t.sel.value.path) && RowStands(t, inc, t.sel.value)
    ensures ParseName(t.sel.value.path).Some?
  {
    hide ParseName, ValidRelative, FileThere;
  }

  /** The whole check, exactly, by what is stored and what the row says: a publication is accepted if and only if the
      row, if there is one, is one it can stand beside, no complete rollout rivals the incoming one unless a row vouches
      for it, and every stored representation of every incoming rollout holds what is needed of it or can be continued.
      Of accepted ones exactly those under a prerequisite's row repair it. */
  lemma AcceptedExactly(t: Target, inc: Incoming)
    requires CollisionFree(t.w) && ValidIncoming(t.w, t.limits, inc) && 1 <= |inc.files| == |inc.payload|
    requires InventoryOf(t.tree, t.inv)
    ensures Check(t, inc).Ok? <==>
            (t.sel.Some? ==> RowStands(t, inc, t.sel.value)) && NoRival(t, inc) && StoredWorkable(t, inc)
    ensures Check(t, inc).Ok? ==>
              |Check(t, inc).value| == |inc.files| &&
              Check(t, inc).value[|inc.files| - 1].repair ==
              if t.sel.Some? && PrerequisitePath(t.sel.value.path) then t.sel else None
  {
    hide ValidIncoming, CollisionFree, AdmitSelection, Unrivalled, Check, AllWorkable, RowStands, NoRival, InventoryOf;
    hide PrerequisitePath, Stored, Workable;
    CheckExactly(t, inc);
    RowExactly(t, inc);
    if AdmitSelection(t, inc).Ok? {
      RivalsExactly(t, inc);
      WorkableExactly(t, inc);
    }
    if Check(t, inc).Ok? {
      LastRepair(t, inc);
    }
  }

  lemma WorkableExactly(t: Target, inc: Incoming)
    requires InventoryOf(t.tree, t.inv) && 1 <= |inc.files| == |inc.payload| && AdmitSelection(t, inc).Ok?
    ensures AllWorkable(t, inc, AdmissionOf(t, inc)) <==> StoredWorkable(t, inc)
  {
    hide AdmitSelection, Stored, Workable, InventoryOf;
    forall c: Candidate
      ensures c in AdmissionOf(t, inc).inv <==> Stored(t, inc, c)
    {
      CandidatesExactly(t, inc, c);
    }
  }

  lemma LastRepair(t: Target, inc: Incoming)
    requires ValidIncoming(t.w, t.limits, inc) && 1 <= |inc.files| == |inc.payload| && Check(t, inc).Ok?
    ensures AdmitSelection(t, inc).Ok? && |Check(t, inc).value| == |inc.files|
    ensures Check(t, inc).value[|inc.files| - 1].repair == AdmissionOf(t, inc).repair
  {
    hide ValidIncoming, AdmitSelection, Unrivalled, AllFit, AllOf, WeighAll, ChooseFrom, Extensions;
    CheckAccepts(t, inc);
    var a, n := AdmitSelection(t, inc).value, |inc.files| - 1;
    ChooseFromFacts(t, inc, a, 0);
    WeighAllFacts(t, inc, n, FreshChoice(inc, n, a.repair), a.inv);
    PrefixUnlessLast(t.w, t.limits, inc, n);
  }
}
