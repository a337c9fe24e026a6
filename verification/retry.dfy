// Stopping a publication anywhere and running it again: internal/session/publish.go.

module Retry {
  import opened Model
  import opened Format
  import opened Rollout
  import opened Inspect
  import opened Lineage
  import opened Conflicts
  import opened Steps
  import opened Schedule
  import opened Comparison
  import opened Planning
  import opened Publication

  // ---- what the finished publication leaves, without saying how it gets there ----

  /** A stored file without its inode. */
  type Face = (Bytes, int)

  function FaceOf(n: Node): Face {
    (n.raw, n.mtime)
  }

  function View(tree: Tree): map<string, Face> {
    map p | p in tree :: FaceOf(tree[p])
  }

  function IndexFrom(inc: Incoming, rollout: string, from: nat): (r: Option<nat>)
    requires from <= |inc.files|
    ensures r.Some? ==> from <= r.value < |inc.files| && inc.files[r.value].rollout == rollout
    ensures r.None? ==> forall i | from <= i < |inc.files| :: inc.files[i].rollout != rollout
    decreases |inc.files| - from
  {
    if from == |inc.files| then None
    else if inc.files[from].rollout == rollout then Some(from)
    else IndexFrom(inc, rollout, from + 1)
  }

  /** The incoming file a listed path holds a representation of. */
  function IndexOf(inc: Incoming, path: string): (r: Option<nat>)
    ensures r.Some? ==> r.value < |inc.files| && Listed(path) && inc.files[r.value].rollout == IdsOf(path).rollout
  {
    if Listed(path) then IndexFrom(inc, IdsOf(path).rollout, 0) else None
  }

  lemma IndexIs(inc: Incoming, path: string, i: nat)
    requires Distinct(inc.files) && i < |inc.files| && Listed(path) && IdsOf(path).rollout == inc.files[i].rollout
    ensures IndexOf(inc, path) == Some(i)
  {
    hide Listed, IdsOf;
  }

  predicate Stale(t: Target, inc: Incoming, path: string)
    requires |inc.files| == |inc.payload|
  {
    IndexOf(inc, path).Some? && path in t.tree && MustGrow(t, inc, IndexOf(inc, path).value, IdsOf(path))
  }

  /** What publication makes of an existing path. */
  function Fate(t: Target, inc: Incoming, path: string): Face
    requires |inc.files| == |inc.payload| && path in t.tree
  {
    if Stale(t, inc, path) then
      var i := IndexOf(inc, path).value;
      (Encode(t.w, path, inc.payload[i]), inc.files[i].modified)
    else FaceOf(t.tree[path])
  }

  function NewPaths(t: Target, inc: Incoming): set<string>
    requires AdmitSelectionOk(t, inc)
  {
    set i | 0 <= i < |inc.files| && !Present(inc, AdmissionOf(t, inc), i) :: inc.files[i].path
  }

  predicate AdmitSelectionOk(t: Target, inc: Incoming) {
    inc.files != [] && AdmitSelection(t, inc).Ok?
  }

  function Arrival(inc: Incoming, path: string): Face
    requires |inc.files| == |inc.payload|
  {
    if IndexOf(inc, path).Some? then
      (inc.payload[IndexOf(inc, path).value], inc.files[IndexOf(inc, path).value].modified)
    else ([], 0)
  }

  /** The destination after a complete publication: stale managed prefixes hold the incoming bytes, absent rollouts
      are there, everything else is as before. */
  function FinalView(t: Target, inc: Incoming): map<string, Face>
    requires |inc.files| == |inc.payload| && AdmitSelectionOk(t, inc)
  {
    map p | p in t.tree.Keys + NewPaths(t, inc) :: if p in t.tree then Fate(t, inc, p) else Arrival(inc, p)
  }

  // ---- any point of a publication ----

  /** A path the publication has dealt with: it holds exactly the incoming bytes. */
  ghost predicate Settled(t: Target, inc: Incoming, i: nat, p: string, node: Node)
    requires i < |inc.files| == |inc.payload| && AdmitSelectionOk(t, inc)
  {
    Listed(p) && For(inc, i, IdsOf(p)) && Visible(t.w, p, node) == Stream(inc.payload[i], true) &&
    node.raw == Encode(t.w, p, inc.payload[i]) && node.mtime == inc.files[i].modified &&
    (if p in t.tree then MustGrow(t, inc, i, IdsOf(p))
     else p == inc.files[i].path && !Present(inc, AdmissionOf(t, inc), i))
  }

  ghost predicate Dealt(t: Target, inc: Incoming, p: string, node: Node)
    requires |inc.files| == |inc.payload| && AdmitSelectionOk(t, inc)
  {
    exists i | 0 <= i < |inc.files| :: Settled(t, inc, i, p, node)
  }

  /** A state between the start and the end of the publication. */
  ghost predicate Underway(t: Target, inc: Incoming, tree: Tree)
    requires |inc.files| == |inc.payload| && AdmitSelectionOk(t, inc)
  {
    (forall p | p in t.tree :: p in tree) &&
    forall p | p in tree :: (p in t.tree && tree[p] == t.tree[p]) || Dealt(t, inc, p, tree[p])
  }

  ghost predicate DistinctPaths(steps: seq<Step>) {
    forall i, j | 0 <= i < j < |steps| :: steps[i].path != steps[j].path
  }

  lemma InOrderDistinct(w: World, steps: seq<Step>, k: nat)
    requires InOrder(w, steps) && k <= |steps|
    ensures DistinctPaths(steps[..k])
  {
    var done := steps[..k];
    forall i, j | 0 <= i < j < |done|
      ensures done[i].path != done[j].path
    {
      assert Compatible(w, steps[i], steps[j]);
    }
  }

  lemma {:induction false} ApplyAt(tree: Tree, steps: seq<Step>, p: string)
    requires DistinctPaths(steps)
    ensures forall j | 0 <= j < |steps| ::
              steps[j].path in Apply(tree, steps) && Apply(tree, steps)[steps[j].path] == steps[j].node
    ensures (forall j | 0 <= j < |steps| :: steps[j].path != p) ==>
              (p in Apply(tree, steps) <==> p in tree) && (p in tree ==> Apply(tree, steps)[p] == tree[p])
  {
    if steps != [] {
      var init, last := steps[..|steps| - 1], steps[|steps| - 1];
      ApplyAt(tree, init, p);
      var before := Apply(tree, init);
      assert Apply(tree, steps) == before[last.path := last.node];
      forall j | 0 <= j < |steps|
        ensures steps[j].path in Apply(tree, steps) && Apply(tree, steps)[steps[j].path] == steps[j].node
      {
        if j < |init| {
          assert init[j] == steps[j];
        }
      }
    }
  }

  lemma PlannedSettles(t: Target, inc: Incoming, i: nat, s: Step)
    requires i < |inc.files| == |inc.payload| && AdmitSelectionOk(t, inc) && Planned(t, inc, i, s)
    requires s.Install? ==> s.path !in t.tree
    ensures Settled(t, inc, i, s.path, s.node)
  {
    hide AdmitSelection, MustGrow, Present, Listed, IdsOf, Decoded, Encode;
  }

  /** Wherever the publication stops, every path is as before or settled. */
  lemma StopsUnderway(t: Target, inc: Incoming, stage: Stage, k: nat)
    requires Accepted(t, inc) && StageFor(t.w, inc, Check(t, inc).value, stage)
    requires k <= |StepsOf(t.w, inc, Check(t, inc).value, stage)|
    ensures |inc.files| == |inc.payload| && AdmitSelectionOk(t, inc)
    ensures Underway(t, inc, Apply(t.tree, StepsOf(t.w, inc, Check(t, inc).value, stage)[..k]))
  {
    hide AdmitSelection, Accepted, Check, Planned, StepsUpTo, Compatible, StageFor, Settled, Safe;
    AcceptedFacts(t, inc);
    var steps := StepsOf(t.w, inc, Check(t, inc).value, stage);
    var done := steps[..k];
    StepsUpToInOrder(t, inc, stage, |inc.files|);
    InOrderDistinct(t.w, steps, k);
    var tree := Apply(t.tree, done);
    forall p
      ensures p in t.tree ==> p in tree
      ensures p in tree ==> (p in t.tree && tree[p] == t.tree[p]) || Dealt(t, inc, p, tree[p])
    {
      ApplyAt(t.tree, done, p);
      if j :| 0 <= j < |done| && done[j].path == p {
        assert done[j] in steps;
        StepDealt(t, inc, stage, done[j]);
      }
    }
  }

  lemma StepDealt(t: Target, inc: Incoming, stage: Stage, s: Step)
    requires Accepted(t, inc) && StageFor(t.w, inc, Check(t, inc).value, stage)
    requires s in StepsOf(t.w, inc, Check(t, inc).value, stage)
    ensures |inc.files| == |inc.payload| && AdmitSelectionOk(t, inc) && Dealt(t, inc, s.path, s.node)
  {
    hide AdmitSelection, Accepted, Check, Planned, StepsUpTo, Compatible, StageFor, Settled;
    AcceptedFacts(t, inc);
    StepsUpToInOrder(t, inc, stage, |inc.files|);
    var i :| 0 <= i < |inc.files| && Planned(t, inc, i, s);
    if s.Install? {
      InstallFresh(t, inc, i, s);
    }
    PlannedSettles(t, inc, i, s);
  }

  lemma InstallFresh(t: Target, inc: Incoming, i: nat, s: Step)
    requires Accepted(t, inc) && i < |inc.files| == |inc.payload| && AdmitSelection(t, inc).Ok?
    requires s.Install? && Planned(t, inc, i, s)
    ensures s.path !in t.tree
  {
    hide AdmitSelection, Accepted, Decoded, Encode, Present, ParseName, ManagedPath, ValidIncoming, PrerequisitePath;
    AcceptedLossless(t, inc);
    ValidAt(t.w, t.limits, inc, i);
    if s.path in t.tree {
      AbsentMeans(t, inc, i, s.path);
    }
  }

  // ---- the same check again ----

  /** The destination as the next attempt sees it. */
  ghost predicate Again(t: Target, t1: Target) {
    t1.w == t.w && t1.limits == t.limits && t1.sel == t.sel
  }

  lemma DealtIndex(t: Target, inc: Incoming, p: string, node: Node)
    requires |inc.files| == |inc.payload| && AdmitSelectionOk(t, inc) && Distinct(inc.files)
    requires Dealt(t, inc, p, node)
    ensures Listed(p) && IndexOf(inc, p).Some? && Settled(t, inc, IndexOf(inc, p).value, p, node)
  {
    hide AdmitSelection, Listed, IdsOf, MustGrow, Present, Encode, Decoded, Distinct;
    var i :| 0 <= i < |inc.files| && Settled(t, inc, i, p, node);
    IndexIs(inc, p, i);
  }

  lemma SettledNow(t: Target, t1: Target, inc: Incoming, p: string)
    requires |inc.files| == |inc.payload| && AdmitSelectionOk(t, inc) && ValidIncoming(t.w, t.limits, inc)
    requires p in t1.tree && Dealt(t, inc, p, t1.tree[p]) && Again(t, t1)
    ensures Listed(p) && IndexOf(inc, p).Some?
    ensures var i := IndexOf(inc, p).value;
            Settled(t, inc, i, p, t1.tree[p]) && For(inc, i, IdsOf(p)) && Fits(t1, inc, i, IdsOf(p)) &&
            !MustGrow(t1, inc, i, IdsOf(p))
  {
    hide AdmitSelection, Listed, IdsOf, ValidFile, Joined, Compare, MustGrow, Present, Encode, Decoded, Dealt, IndexOf,
         Fits, Distinct;
    DealtIndex(t, inc, p, t1.tree[p]);
    PathOfIds(p);
    CompareSettled(t.w, t.limits, inc, IndexOf(inc, p).value, t1.tree[p], IdsOf(p));
    SettledFits(t1, inc, IndexOf(inc, p).value, IdsOf(p));
  }

  lemma SettledFits(t1: Target, inc: Incoming, i: nat, c: Candidate)
    requires i < |inc.files| == |inc.payload| && For(inc, i, c) && c.path in t1.tree
    requires var r := Compare(t1.w, t1.limits, inc, i, t1.tree[c.path], c);
             r.Ok? && !r.value.1 && SameBytes(inc.files[i], r.value.0)
    ensures Fits(t1, inc, i, c) && !MustGrow(t1, inc, i, c)
  {
    hide Compare;
  }

  lemma UnchangedFits(t: Target, t1: Target, inc: Incoming, i: nat, c: Candidate)
    requires i < |inc.files| == |inc.payload| && Again(t, t1)
    requires c.path in t.tree && c.path in t1.tree && t1.tree[c.path] == t.tree[c.path]
    ensures Fits(t1, inc, i, c) == Fits(t, inc, i, c) && MustGrow(t1, inc, i, c) == MustGrow(t, inc, i, c)
  {
    hide Compare;
  }

  lemma KeptListed(t: Target, t1: Target, inc: Incoming, c: Candidate)
    requires |inc.files| == |inc.payload| && AdmitSelectionOk(t, inc) && Underway(t, inc, t1.tree)
    requires InventoryOf(t.tree, t.inv) && InventoryOf(t1.tree, t1.inv)
    ensures c in t.inv ==> c in t1.inv
    ensures c in t1.inv && c.path in t.tree ==> c in t.inv
  {
    hide AdmitSelection, ParseName, ManagedPath, Dealt;
  }

  /** Nothing new appears among the forms of an authoritative file that the inventory could not list. */
  lemma NoNewForms(t: Target, t1: Target, inc: Incoming, p: string)
    requires |inc.files| == |inc.payload| && AdmitSelectionOk(t, inc) && Underway(t, inc, t1.tree)
    requires ValidIncoming(t.w, t.limits, inc)
    requires InventoryOf(t.tree, t.inv) && t.sel.Some? && Forms(t.inv, t.sel.value.path) == [] && Again(t, t1)
    requires p in t1.tree && p !in t.tree
    ensures TrimSuffix(p, ".zst") != TrimSuffix(t.sel.value.path, ".zst")
  {
    hide AdmitSelection, ParseName, ManagedPath, PrerequisitePath, TrimSuffix, Filter, ValidIncoming, Settled, Added;
    SettledNow(t, t1, inc, p);
    var path := t.sel.value.path;
    AdmissionFacts(t, inc);
    AdmittedForms(t, inc);
    var a := AdmissionOf(t, inc);
    var d := a.inv[|t.inv|];
    assert d == a.inv[|t.inv|..][0];
    NotBothForms(t, inc, p, d, path);
  }

  lemma NotBothForms(t: Target, inc: Incoming, p: string, d: Candidate, path: string)
    requires inc.files != [] && Added(t, inc, d) && Listed(p) && HasSuffix(TrimSuffix(path, ".zst"), ".jsonl")
    requires TrimSuffix(d.path, ".zst") == TrimSuffix(path, ".zst")
    ensures TrimSuffix(p, ".zst") != TrimSuffix(path, ".zst")
  {
    hide ParseName, ManagedPath, PrerequisitePath, TrimSuffix;
    if TrimSuffix(p, ".zst") == TrimSuffix(path, ".zst") {
      FormsAlike(p, d.path);
    }
  }

  /** When the inventory lists no form of the selected path, an unlisted form was found. */
  lemma AdmittedForms(t: Target, inc: Incoming)
    requires AdmitSelectionOk(t, inc) && t.sel.Some? && Forms(t.inv, t.sel.value.path) == []
    ensures var a, path := AdmissionOf(t, inc), t.sel.value.path;
            |a.inv| > |t.inv| && TrimSuffix(a.inv[|t.inv|].path, ".zst") == TrimSuffix(path, ".zst") &&
            HasSuffix(TrimSuffix(path, ".zst"), ".jsonl")
  {
    hide ParseName, ManagedPath, PrerequisitePath, ValidRelative, RepairablePath, TrimSuffix, Filter;
    var path := t.sel.value.path;
    SelectableForms(path);
    var added := PresentForms(t.tree, path, SelectedCandidate(t.sel.value, Main(inc)).value);
    assert AdmissionOf(t, inc).inv == t.inv + added;
    FormsOf(path, added[0].path);
  }

  /** The selected row is admitted again, with the same extra candidates and the same repair. */
  lemma SelectionAgain(t: Target, t1: Target, inc: Incoming)
    requires Accepted(t, inc) && |inc.files| == |inc.payload| && AdmitSelectionOk(t, inc) && Underway(t, inc, t1.tree)
    requires InventoryOf(t1.tree, t1.inv) && Again(t, t1)
    ensures AdmitSelectionOk(t1, inc) && AdmissionOf(t1, inc).repair == AdmissionOf(t, inc).repair
    ensures AdmissionOf(t1, inc).inv == t1.inv + ExtraOf(t, inc)
  {
    hide ParseName, ManagedPath, PrerequisitePath, ValidRelative, RepairablePath, TrimSuffix, Filter, Accepted, Dealt,
         SelectedCandidate, Unrivalled;
    AcceptedLossless(t, inc);
    var a := AdmissionOf(t, inc);
    if t.sel.Some? {
      var path := t.sel.value.path;
      SelectableForms(path);
      var c := SelectedCandidate(t.sel.value, Main(inc)).value;
      if Forms(t.inv, path) == [] {
        NoFormsAgain(t, t1, inc);
        SamePresentForms(t, t1, inc, c);
        assert a.inv[|t.inv|..] == PresentForms(t.tree, path, c);
      } else {
        KeptListed(t, t1, inc, Forms(t.inv, path)[0]);
        assert Forms(t.inv, path)[0] in Forms(t.inv, path);
        assert Forms(t.inv, path)[0] in Forms(t1.inv, path);
        assert a.inv[|t.inv|..] == [];
      }
    } else {
      assert a.inv[|t.inv|..] == [];
      assert t1.inv + [] == t1.inv;
    }
  }

  lemma NoFormsAgain(t: Target, t1: Target, inc: Incoming)
    requires ValidIncoming(t.w, t.limits, inc) && AdmitSelectionOk(t, inc) && |inc.files| == |inc.payload|
    requires Underway(t, inc, t1.tree) && InventoryOf(t.tree, t.inv) && InventoryOf(t1.tree, t1.inv) && Again(t, t1)
    requires t.sel.Some? && Forms(t.inv, t.sel.value.path) == []
    ensures Forms(t1.inv, t.sel.value.path) == []
  {
    hide AdmitSelection, ParseName, ManagedPath, TrimSuffix, Filter, ValidIncoming, Dealt;
    var forms := Forms(t1.inv, t.sel.value.path);
    if forms != [] {
      var c := forms[0];
      assert c in forms && c in t1.inv;
      KeptListed(t, t1, inc, c);
      NoSuchForm(t.inv, t.sel.value.path, c);
      if c.path !in t.tree {
        NoNewForms(t, t1, inc, c.path);
      }
    }
  }

  lemma NoSuchForm(inv: seq<Candidate>, path: string, c: Candidate)
    requires Forms(inv, path) == []
    ensures c in inv ==> TrimSuffix(c.path, ".zst") != TrimSuffix(path, ".zst")
  {
    hide Filter, TrimSuffix;
    assert c !in Forms(inv, path);
  }

  lemma SamePresentForms(t: Target, t1: Target, inc: Incoming, c: Candidate)
    requires ValidIncoming(t.w, t.limits, inc) && AdmitSelectionOk(t, inc) && |inc.files| == |inc.payload|
    requires Underway(t, inc, t1.tree) && InventoryOf(t.tree, t.inv) && Again(t, t1)
    requires t.sel.Some? && Forms(t.inv, t.sel.value.path) == []
    ensures PresentForms(t1.tree, t.sel.value.path, c) == PresentForms(t.tree, t.sel.value.path, c)
  {
    hide AdmitSelection, ParseName, ManagedPath, TrimSuffix, Filter, ValidIncoming, Dealt;
    var path := t.sel.value.path;
    AdmittedForms(t, inc);
    var plain := TrimSuffix(path, ".zst");
    FormsOf(path, plain);
    FormsOf(path, plain + ".zst");
    if plain in t1.tree && plain !in t.tree {
      NoNewForms(t, t1, inc, plain);
    }
    if plain + ".zst" in t1.tree && plain + ".zst" !in t.tree {
      NoNewForms(t, t1, inc, plain + ".zst");
    }
  }

  /** A candidate of the second attempt is one of the first, unchanged or dealt with, or a file just installed. */
  lemma CandidateAgain(t: Target, t1: Target, inc: Incoming, c: Candidate)
    requires Accepted(t, inc) && |inc.files| == |inc.payload| && AdmitSelectionOk(t, inc) && Underway(t, inc, t1.tree)
    requires InventoryOf(t1.tree, t1.inv) && Again(t, t1) && AdmitSelectionOk(t1, inc)
    requires AdmissionOf(t1, inc).inv == t1.inv + ExtraOf(t, inc)
    ensures c in AdmissionOf(t, inc).inv ==> c in AdmissionOf(t1, inc).inv
    ensures c in AdmissionOf(t1, inc).inv ==>
              c.path in t1.tree && (c.path in t.tree ==> c in AdmissionOf(t, inc).inv) &&
              ((c.path in t.tree && t1.tree[c.path] == t.tree[c.path]) ||
               (Dealt(t, inc, c.path, t1.tree[c.path]) && Listed(c.path) && IdsOf(c.path) == c))
  {
    hide AdmitSelection, ParseName, ManagedPath, Dealt, PrerequisitePath, ValidIncoming, Check;
    AcceptedLossless(t, inc);
    AdmissionFacts(t, inc);
    KeptListed(t, t1, inc, c);
    var a := AdmissionOf(t, inc);
    assert a.inv == t.inv + a.inv[|t.inv|..];
    if c in a.inv[|t.inv|..] {
      AddedStays(t, t1, inc, c);
    }
  }

  lemma AddedStays(t: Target, t1: Target, inc: Incoming, c: Candidate)
    requires |inc.files| == |inc.payload| && AdmitSelectionOk(t, inc) && Underway(t, inc, t1.tree) && Added(t, inc, c)
    ensures c.path in t1.tree && t1.tree[c.path] == t.tree[c.path]
  {
    hide AdmitSelection, ParseName, ManagedPath, PrerequisitePath;
  }

  lemma FitsAgain(t: Target, t1: Target, inc: Incoming, i: nat, c: Candidate)
    requires Accepted(t, inc) && i < |inc.files| == |inc.payload| && AdmitSelectionOk(t, inc) &&
             Underway(t, inc, t1.tree)
    requires InventoryOf(t1.tree, t1.inv) && Again(t, t1) && AdmitSelectionOk(t1, inc)
    requires AdmissionOf(t1, inc).inv == t1.inv + ExtraOf(t, inc)
    requires c in AdmissionOf(t1, inc).inv && c.rollout == inc.files[i].rollout
    ensures c.path in t1.tree && Fits(t1, inc, i, c)
    ensures MustGrow(t1, inc, i, c) <==>
              c.path in t.tree && t1.tree[c.path] == t.tree[c.path] && MustGrow(t, inc, i, c)
  {
    hide AdmitSelection, ParseName, ManagedPath, Dealt, Check, Fits, MustGrow, ValidFile, Joined, IndexOf, Settled,
         Distinct;
    AcceptedLossless(t, inc);
    CandidateAgain(t, t1, inc, c);
    ChoiceAt(t, inc, i);
    if c.path in t.tree && t1.tree[c.path] == t.tree[c.path] {
      UnchangedFits(t, t1, inc, i, c);
    } else {
      SettledNow(t, t1, inc, c.path);
      IndexIs(inc, c.path, i);
    }
  }

  lemma UnrivalledAgain(t: Target, t1: Target, inc: Incoming)
    requires Accepted(t, inc) && |inc.files| == |inc.payload| && AdmitSelectionOk(t, inc) && Underway(t, inc, t1.tree)
    requires InventoryOf(t1.tree, t1.inv) && Again(t, t1) && AdmitSelectionOk(t1, inc)
    requires AdmissionOf(t1, inc).inv == t1.inv + ExtraOf(t, inc)
    requires AdmissionOf(t1, inc).repair == AdmissionOf(t, inc).repair
    ensures Unrivalled(t1, inc, AdmissionOf(t1, inc))
  {
    hide AdmitSelection, ParseName, ManagedPath, PrerequisitePath, Check, AllFit, ValidIncoming, Dealt;
    AcceptedLossless(t, inc);
    AcceptedFacts(t, inc);
    var a1 := AdmissionOf(t1, inc);
    forall c | c in a1.inv && c.thread == Main(inc).thread && !PrerequisitePath(c.path) && c !in AdmissionOf(t, inc).inv
      ensures c.rollout == Main(inc).rollout
    {
      CandidateAgain(t, t1, inc, c);
      InstalledConversation(t, t1, inc, c);
    }
  }

  lemma InstalledConversation(t: Target, t1: Target, inc: Incoming, c: Candidate)
    requires ValidIncoming(t.w, t.limits, inc) && |inc.files| == |inc.payload| && AdmitSelectionOk(t, inc)
    requires c.path !in t.tree && c.path in t1.tree && Dealt(t, inc, c.path, t1.tree[c.path])
    requires Listed(c.path) && IdsOf(c.path) == c && !PrerequisitePath(c.path)
    ensures c.rollout == Main(inc).rollout
  {
    hide AdmitSelection, ParseName, ManagedPath, PrerequisitePath, Describes, Joined, Distinct, Decoded, Encode,
         Present;
    var i :| 0 <= i < |inc.files| && Settled(t, inc, i, c.path, t1.tree[c.path]);
    assert ValidFile(t.w, t.limits, inc.files[i], inc.payload[i]);
    LastIsMain(t, inc, i);
  }

  /** A retry is never refused: whatever point the first attempt reached, the same check accepts again. */
  lemma AcceptedAgain(t: Target, t1: Target, inc: Incoming)
    requires Accepted(t, inc) && |inc.files| == |inc.payload| && AdmitSelectionOk(t, inc) && Underway(t, inc, t1.tree)
    requires InventoryOf(t1.tree, t1.inv) && Again(t, t1)
    ensures Accepted(t1, inc) && AdmitSelectionOk(t1, inc)
    ensures AdmissionOf(t1, inc).inv == t1.inv + ExtraOf(t, inc)
    ensures AdmissionOf(t1, inc).repair == AdmissionOf(t, inc).repair
  {
    hide AdmitSelection, ParseName, ManagedPath, PrerequisitePath, Check, ValidFile, Dealt, Fits, Joined, Distinct,
         Unrivalled;
    AcceptedLossless(t, inc);
    SelectionAgain(t, t1, inc);
    UnrivalledAgain(t, t1, inc);
    forall i, c | 0 <= i < |inc.files| && c in AdmissionOf(t1, inc).inv && c.rollout == inc.files[i].rollout
      ensures Fits(t1, inc, i, c)
    {
      FitsAgain(t, t1, inc, i, c);
    }
    CheckAccepts(t1, inc);
  }

  /** A rollout is present on the second attempt when it was on the first or has been installed since. */
  lemma PresentAgain(t: Target, t1: Target, inc: Incoming, i: nat)
    requires Accepted(t, inc) && i < |inc.files| == |inc.payload| && AdmitSelectionOk(t, inc) &&
             Underway(t, inc, t1.tree)
    requires InventoryOf(t1.tree, t1.inv) && Again(t, t1) && AdmitSelectionOk(t1, inc)
    requires AdmissionOf(t1, inc).inv == t1.inv + ExtraOf(t, inc)
    ensures Present(inc, AdmissionOf(t1, inc), i) <==>
              Present(inc, AdmissionOf(t, inc), i) || inc.files[i].path in t1.tree
  {
    hide AdmitSelection, ParseName, ManagedPath, PrerequisitePath, Check, ValidIncoming, Dealt, Usable, IndexOf,
         Settled, Accepted;
    AcceptedLossless(t, inc);
    var a, a1, f := AdmissionOf(t, inc), AdmissionOf(t1, inc), inc.files[i];
    if Present(inc, a, i) {
      var c :| c in a.inv && Usable(inc, i, c);
      CandidateAgain(t, t1, inc, c);
    } else {
      if f.path in t1.tree {
        PublishedUsable(t, t1, inc, i);
      }
      if Present(inc, a1, i) {
        var c :| c in a1.inv && Usable(inc, i, c);
        CandidateAgain(t, t1, inc, c);
        NewlyUsable(t, t1, inc, i, c);
      }
    }
  }

  lemma PublishedUsable(t: Target, t1: Target, inc: Incoming, i: nat)
    requires ValidIncoming(t.w, t.limits, inc) && i < |inc.files|
    requires inc.files[i].path in t1.tree && InventoryOf(t1.tree, t1.inv)
    ensures IdsOf(inc.files[i].path) in t1.inv && Usable(inc, i, IdsOf(inc.files[i].path))
  {
    hide ParseName, ManagedPath, PrerequisitePath, Joined, Distinct, Describes;
    assert ValidFile(t.w, t.limits, inc.files[i], inc.payload[i]);
  }

  lemma NewlyUsable(t: Target, t1: Target, inc: Incoming, i: nat, c: Candidate)
    requires ValidIncoming(t.w, t.limits, inc) && i < |inc.files| == |inc.payload| && AdmitSelectionOk(t, inc)
    requires c.path in t1.tree && c !in AdmissionOf(t, inc).inv && c.path !in t.tree &&
             Dealt(t, inc, c.path, t1.tree[c.path])
    requires Listed(c.path) && IdsOf(c.path) == c && Usable(inc, i, c)
    ensures inc.files[i].path in t1.tree
  {
    hide AdmitSelection, ParseName, ManagedPath, PrerequisitePath, Joined, Decoded, Encode, Present, ValidFile, IndexOf;
    DealtIndex(t, inc, c.path, t1.tree[c.path]);
    IndexIs(inc, c.path, i);
  }
}
