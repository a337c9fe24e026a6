// Publication reaches one destination, however often it is interrupted and repeated: internal/session/publish.go.

module Convergence {
  import opened Model
  import opened Format
  import opened Rollout
  import opened Inspect
  import opened Lineage
  import opened Conflicts
  import opened Steps
  import opened Schedule
  import opened Comparison
  import opened Planning
  import opened Publication
  import opened Retry

  /** A second look at a destination on which the publication is under way. */
  ghost predicate SecondLook(t: Target, t1: Target, inc: Incoming) {
    Accepted(t, inc) && |inc.files| == |inc.payload| && AdmitSelectionOk(t, inc) && Underway(t, inc, t1.tree) &&
    InventoryOf(t1.tree, t1.inv) && Again(t, t1)
  }

  lemma ListedCandidate(t: Target, inc: Incoming, p: string)
    requires InventoryOf(t.tree, t.inv) && inc.files != [] && AdmitSelectionOk(t, inc) && p in t.tree && Listed(p)
    ensures IdsOf(p) in AdmissionOf(t, inc).inv && IdsOf(p).path == p
  {
    hide AdmitSelection, ParseName, ManagedPath;
    PathOfIds(p);
    AdmissionFacts(t, inc);
    assert IdsOf(p) in AdmissionOf(t, inc).inv[..|t.inv|];
  }

  lemma FateAgain(t: Target, t1: Target, inc: Incoming, p: string)
    requires SecondLook(t, t1, inc) && AdmitSelectionOk(t1, inc) && p in t.tree
    requires AdmissionOf(t1, inc).inv == t1.inv + ExtraOf(t, inc)
    ensures p in t1.tree && Fate(t1, inc, p) == Fate(t, inc, p)
  {
    hide AdmitSelection, Listed, IdsOf, Accepted, Dealt, MustGrow, Encode, IndexOf, InventoryOf, ValidIncoming, Present,
         Decoded;
    AcceptedLossless(t, inc);
    if IndexOf(inc, p).Some? {
      var i := IndexOf(inc, p).value;
      ListedCandidate(t, inc, p);
      CandidateAgain(t, t1, inc, IdsOf(p));
      FitsAgain(t, t1, inc, i, IdsOf(p));
      if t1.tree[p] != t.tree[p] {
        DealtNow(t, inc, p, t1.tree[p]);
      }
    } else if t1.tree[p] != t.tree[p] {
      DealtNow(t, inc, p, t1.tree[p]);
    }
  }

  lemma DealtNow(t: Target, inc: Incoming, p: string, node: Node)
    requires |inc.files| == |inc.payload| && AdmitSelectionOk(t, inc) && ValidIncoming(t.w, t.limits, inc)
    requires Dealt(t, inc, p, node)
    ensures IndexOf(inc, p).Some? && Settled(t, inc, IndexOf(inc, p).value, p, node)
  {
    hide ValidFile, Joined, Distinct, AdmitSelection, Settled, IndexOf;
    DealtIndex(t, inc, p, node);
  }

  lemma ArrivedAgain(t: Target, t1: Target, inc: Incoming, p: string)
    requires SecondLook(t, t1, inc) && AdmitSelectionOk(t1, inc) && p in t1.tree && p !in t.tree
    requires AdmissionOf(t1, inc).inv == t1.inv + ExtraOf(t, inc)
    ensures p in NewPaths(t, inc) && Fate(t1, inc, p) == Arrival(inc, p)
  {
    hide AdmitSelection, Accepted, Dealt, MustGrow, IndexOf, InventoryOf, ValidIncoming, Present, Decoded, ParseName,
         ManagedPath;
    AcceptedLossless(t, inc);
    DealtNow(t, inc, p, t1.tree[p]);
    SettledNow(t, t1, inc, p);
    var i := IndexOf(inc, p).value;
    ValidAt(t.w, t.limits, inc, i);
    NotCompressed(p);
  }

  /** Interrupted anywhere, a publication still aims at the same destination: what remains to be done is what was to
      be done. */
  lemma SameAim(t: Target, t1: Target, inc: Incoming)
    requires SecondLook(t, t1, inc)
    ensures Accepted(t1, inc) && AdmitSelectionOk(t1, inc)
    ensures FinalView(t1, inc) == FinalView(t, inc)
  {
    hide AdmitSelection, Accepted, Dealt, Present, Fate, Arrival, InventoryOf;
    AcceptedAgain(t, t1, inc);
    var v, v1 := FinalView(t, inc), FinalView(t1, inc);
    forall i | 0 <= i < |inc.files|
      ensures Present(inc, AdmissionOf(t1, inc), i) <==>
              Present(inc, AdmissionOf(t, inc), i) || inc.files[i].path in t1.tree
    {
      PresentAgainLook(t, t1, inc, i);
    }
    forall p
      ensures p in v <==> p in v1
      ensures p in v && p in v1 ==> v[p] == v1[p]
    {
      if p in t.tree {
        FateAgain(t, t1, inc, p);
      } else if p in t1.tree {
        ArrivedAgain(t, t1, inc, p);
      }
    }
  }

  lemma PresentAgainLook(t: Target, t1: Target, inc: Incoming, i: nat)
    requires SecondLook(t, t1, inc) && AdmitSelectionOk(t1, inc) && i < |inc.files|
    requires AdmissionOf(t1, inc).inv == t1.inv + ExtraOf(t, inc)
    ensures Present(inc, AdmissionOf(t1, inc), i) <==>
            Present(inc, AdmissionOf(t, inc), i) || inc.files[i].path in t1.tree
  {
    hide AdmitSelection, Accepted, Dealt, Present, InventoryOf;
    PresentAgain(t, t1, inc, i);
  }

  // ---- the end of the publication ----

  /** Nothing remains to be done for the first n files. */
  ghost predicate Through(t: Target, inc: Incoming, tree: Tree, n: nat)
    requires n <= |inc.files| == |inc.payload| && AdmitSelectionOk(t, inc)
  {
    Underway(t, inc, tree) &&
    (forall p | p in t.tree && Stale(t, inc, p) && IndexOf(inc, p).value < n :: Dealt(t, inc, p, tree[p])) &&
    (forall i | 0 <= i < n && !Present(inc, AdmissionOf(t, inc), i) :: inc.files[i].path in tree)
  }

  lemma {:induction false} InStepsUpTo(w: World, inc: Incoming, choices: seq<Choice>, stage: Stage, n: nat, i: nat,
                                       s: Step)
    requires StageFor(w, inc, choices, stage) && i < n <= |choices| && s in StepsFor(w, inc, choices, stage, i)
    ensures s in StepsUpTo(w, inc, choices, stage, n)
  {
    hide StepsFor, StageFor;
    if i < n - 1 {
      InStepsUpTo(w, inc, choices, stage, n - 1, i, s);
    }
  }

  lemma StaleGrows(t: Target, inc: Incoming, p: string)
    requires Accepted(t, inc) && |inc.files| == |inc.payload| && p in t.tree && Stale(t, inc, p)
    ensures AdmitSelectionOk(t, inc) && IndexOf(inc, p).Some? && Listed(p)
    ensures IdsOf(p) in AdmissionOf(t, inc).inv && IdsOf(p).path == p &&
            MustGrow(t, inc, IndexOf(inc, p).value, IdsOf(p))
  {
    hide AdmitSelection, Accepted, Check, Listed, IdsOf, MustGrow, IndexOf;
    AcceptedFacts(t, inc);
    AcceptedLossless(t, inc);
    ListedCandidate(t, inc, p);
  }

  /** A candidate that must grow is among the files its choice extends. */
  lemma GrowingExtension(t: Target, inc: Incoming, i: nat, c: Candidate) returns (j: nat)
    requires Accepted(t, inc) && i < |inc.files| == |inc.payload| && AdmitSelectionOk(t, inc)
    requires c in AdmissionOf(t, inc).inv && MustGrow(t, inc, i, c)
    ensures Check(t, inc).Ok? && |Check(t, inc).value| == |inc.files| && j < |Check(t, inc).value[i].extensions|
    ensures Check(t, inc).value[i].extensions[j].source == c.path
  {
    hide *;
    AcceptedShape(t, inc);
    ChoiceAt(t, inc, i);
    ExtensionsAre(t, inc, i, AdmissionOf(t, inc).inv);
    Grown(t, inc, i, c);
    var f := Compare(t.w, t.limits, inc, i, t.tree[c.path], c).value.0;
    assert f in Check(t, inc).value[i].extensions;
    j :| 0 <= j < |Check(t, inc).value[i].extensions| && Check(t, inc).value[i].extensions[j] == f;
  }

  lemma AcceptedShape(t: Target, inc: Incoming)
    requires Accepted(t, inc)
    ensures inc.files != [] && |inc.files| == |inc.payload| && AdmitSelectionOk(t, inc) && AdmitSelection(t, inc).Ok?
    ensures Check(t, inc).Ok? && |Check(t, inc).value| == |inc.files|
  {
    hide AdmitSelection, Accepted, Check, Unrivalled, AllFit, WeighAll, FreshChoice;
    AcceptedFacts(t, inc);
  }

  lemma Grown(t: Target, inc: Incoming, i: nat, c: Candidate)
    requires Accepted(t, inc) && i < |inc.files| == |inc.payload| && AdmitSelectionOk(t, inc)
    requires c in AdmissionOf(t, inc).inv && MustGrow(t, inc, i, c)
    ensures c.path in t.tree && Compare(t.w, t.limits, inc, i, t.tree[c.path], c).Ok?
    ensures Compare(t.w, t.limits, inc, i, t.tree[c.path], c).value.0.source == c.path
  {
    hide AdmitSelection, Accepted, Check, Compare, Listed, IdsOf, Decoded, Visible;
    GrowingCandidate(t, inc, i, c);
  }

  /** Every stale path has a step. */
  lemma StaleHasStep(t: Target, inc: Incoming, stage: Stage, n: nat, p: string) returns (s: Step)
    requires Accepted(t, inc) && StageFor(t.w, inc, Check(t, inc).value, stage)
    requires n <= |inc.files| == |inc.payload| && p in t.tree && Stale(t, inc, p) && IndexOf(inc, p).value < n
    ensures n <= |Check(t, inc).value| && s in StepsUpTo(t.w, inc, Check(t, inc).value, stage, n) && s.path == p
  {
    hide *;
    AcceptedShape(t, inc);
    StaleGrows(t, inc, p);
    var i := IndexOf(inc, p).value;
    var j := GrowingExtension(t, inc, i, IdsOf(p));
    s := ExtensionStep(t.w, inc, Check(t, inc).value, stage, i, j);
    InStepsUpTo(t.w, inc, Check(t, inc).value, stage, n, i, s);
  }

  lemma ExtensionStep(w: World, inc: Incoming, choices: seq<Choice>, stage: Stage, i: nat, j: nat) returns (s: Step)
    requires StageFor(w, inc, choices, stage) && i < |choices| && j < |choices[i].extensions|
    ensures s in StepsFor(w, inc, choices, stage, i) && s.path == choices[i].extensions[j].source
  {
    hide Encode;
    assert Prepared(w, inc.files[i], inc.payload[i], choices[i].extensions, stage.prepared[i]);
    var e := ExtendSteps(choices[i].extensions, stage.prepared[i]);
    s := e[j];
    assert s in e;
  }

  lemma AbsentHasStep(t: Target, inc: Incoming, stage: Stage, n: nat, i: nat) returns (s: Step)
    requires Accepted(t, inc) && StageFor(t.w, inc, Check(t, inc).value, stage)
    requires AdmitSelectionOk(t, inc) && i < n <= |inc.files| && !Present(inc, AdmissionOf(t, inc), i)
    ensures n <= |Check(t, inc).value| && s in StepsUpTo(t.w, inc, Check(t, inc).value, stage, n)
    ensures s.path == inc.files[i].path
  {
    hide AdmitSelection, Accepted, Check, Extensions, StepsUpTo, AllOf, Prepared, Present;
    AcceptedFacts(t, inc);
    ChoiceAt(t, inc, i);
    s := Install(Check(t, inc).value[i].path, stage.staged[i]);
    assert s in StepsFor(t.w, inc, Check(t, inc).value, stage, i);
    InStepsUpTo(t.w, inc, Check(t, inc).value, stage, n, i, s);
  }

  /** The steps of earlier files come first. */
  lemma {:induction false} StepsUpToPrefix(w: World, inc: Incoming, choices: seq<Choice>, stage: Stage, n: nat, m: nat)
    requires StageFor(w, inc, choices, stage) && n <= m <= |choices|
    ensures StepsUpTo(w, inc, choices, stage, n) <= StepsUpTo(w, inc, choices, stage, m)
    decreases m
  {
    hide StageFor, StepsFor;
    if n < m {
      StepsUpToPrefix(w, inc, choices, stage, n, m - 1);
    }
  }

  lemma TakenStep(steps: seq<Step>, first: seq<Step>, k: nat, s: Step)
    requires first <= steps && |first| <= k <= |steps| && s in first
    ensures s in steps[..k]
  {
    var j :| 0 <= j < |first| && first[j] == s;
    assert steps[..k][j] == s;
  }

  /** After the steps of the first n files nothing remains to be done for them. */
  lemma StepsThrough(t: Target, inc: Incoming, stage: Stage, k: nat, n: nat)
    requires Accepted(t, inc) && StageFor(t.w, inc, Check(t, inc).value, stage) && n <= |inc.files|
    requires n <= |Check(t, inc).value|
    requires |StepsUpTo(t.w, inc, Check(t, inc).value, stage, n)| <= k <= |StepsOf(t.w, inc, Check(t, inc).value,
             stage)|
    ensures |inc.files| == |inc.payload| && AdmitSelectionOk(t, inc)
    ensures Through(t, inc, Apply(t.tree, StepsOf(t.w, inc, Check(t, inc).value, stage)[..k]), n)
  {
    hide AdmitSelection, Accepted, Check, StepsUpTo, StageFor, Dealt, Present, MustGrow, IndexOf, IdsOf, Compatible,
         Planned, StepsOf, Underway;
    AcceptedShape(t, inc);
    var choices := Check(t, inc).value;
    AllSteps(t.w, inc, choices, stage);
    var steps, first := StepsOf(t.w, inc, choices, stage), StepsUpTo(t.w, inc, choices, stage, n);
    StepsUpToPrefix(t.w, inc, choices, stage, n, |choices|);
    StopsUnderway(t, inc, stage, k);
    StepsUpToInOrder(t, inc, stage, |inc.files|);
    InOrderDistinct(t.w, steps, k);
    var tree := Apply(t.tree, steps[..k]);
    forall p | p in t.tree && Stale(t, inc, p) && IndexOf(inc, p).value < n
      ensures p in tree && Dealt(t, inc, p, tree[p])
    {
      var s := StaleHasStep(t, inc, stage, n, p);
      TakenStep(steps, first, k, s);
      assert s in steps;
      StepDealt(t, inc, stage, s);
      ApplyAt(t.tree, steps[..k], p);
    }
    forall i | 0 <= i < n && !Present(inc, AdmissionOf(t, inc), i)
      ensures inc.files[i].path in tree
    {
      var s := AbsentHasStep(t, inc, stage, n, i);
      TakenStep(steps, first, k, s);
      ApplyAt(t.tree, steps[..k], s.path);
    }
  }

  lemma AllStepsComplete(t: Target, inc: Incoming, stage: Stage)
    requires Accepted(t, inc) && StageFor(t.w, inc, Check(t, inc).value, stage)
    ensures |inc.files| == |inc.payload| && AdmitSelectionOk(t, inc)
    ensures Through(t, inc, Apply(t.tree, StepsOf(t.w, inc, Check(t, inc).value, stage)), |inc.files|)
  {
    hide AdmitSelection, Accepted, Check, StepsUpTo, StageFor, StepsOf, Through;
    AcceptedShape(t, inc);
    AllSteps(t.w, inc, Check(t, inc).value, stage);
    var steps := StepsOf(t.w, inc, Check(t, inc).value, stage);
    StepsThrough(t, inc, stage, |steps|, |inc.files|);
    assert steps[..|steps|] == steps;
  }

  lemma FaceSettled(t: Target, inc: Incoming, p: string, node: Node)
    requires |inc.files| == |inc.payload| && AdmitSelectionOk(t, inc) && ValidIncoming(t.w, t.limits, inc)
    requires Dealt(t, inc, p, node)
    ensures FaceOf(node) == if p in t.tree then Fate(t, inc, p) else Arrival(inc, p)
    ensures p !in t.tree ==> p in NewPaths(t, inc)
  {
    hide AdmitSelection, Dealt, MustGrow, IndexOf, ValidIncoming, Present, Decoded, ParseName, ManagedPath;
    DealtNow(t, inc, p, node);
    var i := IndexOf(inc, p).value;
    ValidAt(t.w, t.limits, inc, i);
    if p !in t.tree {
      NotCompressed(p);
    }
  }

  lemma CompleteView(t: Target, inc: Incoming, tree: Tree)
    requires |inc.files| == |inc.payload| && AdmitSelectionOk(t, inc) && ValidIncoming(t.w, t.limits, inc)
    requires Through(t, inc, tree, |inc.files|)
    ensures View(tree) == FinalView(t, inc)
  {
    hide AdmitSelection, Dealt, ValidIncoming, Present, MustGrow, IndexOf, IdsOf, Arrival;
    forall p
      ensures p in View(tree) <==> p in FinalView(t, inc)
      ensures p in tree && p in FinalView(t, inc) ==> FaceOf(tree[p]) == FinalView(t, inc)[p]
    {
      if p in tree && Dealt(t, inc, p, tree[p]) {
        FaceSettled(t, inc, p, tree[p]);
      }
    }
  }

  /** A publication that runs to its end leaves exactly the destination described without reference to its steps. */
  lemma PublicationReaches(t: Target, inc: Incoming, stage: Stage)
    requires Accepted(t, inc) && StageFor(t.w, inc, Check(t, inc).value, stage)
    ensures |inc.files| == |inc.payload| && AdmitSelectionOk(t, inc)
    ensures View(Apply(t.tree, StepsOf(t.w, inc, Check(t, inc).value, stage))) == FinalView(t, inc)
  {
    hide AdmitSelection, Accepted, Check, StepsOf, StageFor, Through, ValidIncoming;
    AcceptedFacts(t, inc);
    AllStepsComplete(t, inc, stage);
    AcceptedLossless(t, inc);
    CompleteView(t, inc, Apply(t.tree, StepsOf(t.w, inc, Check(t, inc).value, stage)));
  }

  /** Retry convergence: interrupt a publication after any number of steps, in any inventory order run it again from
      there with freshly staged files, and the destination is the one an uninterrupted run leaves. */
  lemma RetryConverges(t: Target, inc: Incoming, stage: Stage, k: nat, t1: Target, stage1: Stage)
    requires Accepted(t, inc) && StageFor(t.w, inc, Check(t, inc).value, stage)
    requires k <= |StepsOf(t.w, inc, Check(t, inc).value, stage)|
    requires t1.tree == Apply(t.tree, StepsOf(t.w, inc, Check(t, inc).value, stage)[..k])
    requires InventoryOf(t1.tree, t1.inv) && Again(t, t1)
    requires Check(t1, inc).Ok? ==> StageFor(t1.w, inc, Check(t1, inc).value, stage1)
    ensures Accepted(t1, inc) && StageFor(t1.w, inc, Check(t1, inc).value, stage1)
    ensures View(Apply(t1.tree, StepsOf(t1.w, inc, Check(t1, inc).value, stage1))) ==
            View(Apply(t.tree, StepsOf(t.w, inc, Check(t, inc).value, stage)))
  {
    hide AdmitSelection, Check, StepsOf, StageFor, Underway, ValidIncoming, FinalView, View, InventoryOf;
    StopsUnderway(t, inc, stage, k);
    SameAim(t, t1, inc);
    PublicationReaches(t, inc, stage);
    PublicationReaches(t1, inc, stage1);
  }

  // ---- one more run ----

  lemma {:induction false} NoExtensions(t: Target, inc: Incoming, i: nat, cs: seq<Candidate>)
    requires i < |inc.files| == |inc.payload|
    requires forall c | c in cs :: !MustGrow(t, inc, i, c)
    ensures Extensions(t, inc, i, cs) == []
    decreases |cs|
  {
    hide MustGrow;
    if cs != [] {
      NoExtensions(t, inc, i, cs[1..]);
    }
  }

  lemma NothingGrows(t: Target, t1: Target, inc: Incoming, n: nat, i: nat, c: Candidate)
    requires SecondLook(t, t1, inc) && i < n <= |inc.files| && Through(t, inc, t1.tree, n) && AdmitSelectionOk(t1, inc)
    requires AdmissionOf(t1, inc).inv == t1.inv + ExtraOf(t, inc)
    requires c in AdmissionOf(t1, inc).inv
    ensures !MustGrow(t1, inc, i, c)
  {
    hide AdmitSelection, Accepted, Dealt, Present, Listed, IdsOf, IndexOf, Compare, InventoryOf, Fits;
    if c.rollout == inc.files[i].rollout {
      FitsAgain(t, t1, inc, i, c);
      if MustGrow(t, inc, i, c) && c.path in t.tree && t1.tree[c.path] == t.tree[c.path] {
        StillStale(t, t1, inc, n, i, c);
      }
    }
  }

  lemma StillStale(t: Target, t1: Target, inc: Incoming, n: nat, i: nat, c: Candidate)
    requires SecondLook(t, t1, inc) && i < n <= |inc.files| && Through(t, inc, t1.tree, n) && AdmitSelectionOk(t1, inc)
    requires AdmissionOf(t1, inc).inv == t1.inv + ExtraOf(t, inc)
    requires c in AdmissionOf(t1, inc).inv && c.path in t.tree && MustGrow(t, inc, i, c)
    ensures t1.tree[c.path] != t.tree[c.path]
  {
    hide AdmitSelection, Accepted, Dealt, Present, ParseName, ManagedPath, IndexOf, Compare, InventoryOf, Fits,
         ValidFile;
    AcceptedLossless(t, inc);
    CandidateAgain(t, t1, inc, c);
    GrowingCandidate(t, inc, i, c);
    GrowingFor(t, inc, i, c);
    DistinctOf(t, inc);
    IndexIs(inc, c.path, i);
    assert Stale(t, inc, c.path);
    SettledNow(t, t1, inc, c.path);
    if t1.tree[c.path] == t.tree[c.path] {
      UnchangedFits(t, t1, inc, i, c);
    }
  }

  lemma DistinctOf(t: Target, inc: Incoming)
    requires ValidIncoming(t.w, t.limits, inc)
    ensures Distinct(inc.files)
  {
  }

  /** After a complete publication one more run finds every rollout present and nothing to extend: it creates and
      extends no file, and plans no step at all. */
  lemma RepeatIsIdle(t: Target, inc: Incoming, stage: Stage, t1: Target, stage1: Stage)
    requires Accepted(t, inc) && StageFor(t.w, inc, Check(t, inc).value, stage)
    requires t1.tree == Apply(t.tree, StepsOf(t.w, inc, Check(t, inc).value, stage))
    requires InventoryOf(t1.tree, t1.inv) && Again(t, t1)
    requires Check(t1, inc).Ok? ==> StageFor(t1.w, inc, Check(t1, inc).value, stage1)
    ensures Accepted(t1, inc)
    ensures forall ch | ch in Check(t1, inc).value :: ch.present && ch.extensions == []
    ensures StageFor(t1.w, inc, Check(t1, inc).value, stage1) && StepsOf(t1.w, inc, Check(t1, inc).value, stage1) == []
  {
    hide AdmitSelection, Check, StepsOf, StageFor, Accepted, InventoryOf, Through;
    AllStepsComplete(t, inc, stage);
    CompleteUnderway(t, inc, t1.tree);
    AcceptedAgain(t, t1, inc);
    AcceptedFacts(t1, inc);
    forall i | 0 <= i < |inc.files|
      ensures Check(t1, inc).value[i].present && Check(t1, inc).value[i].extensions == []
    {
      IdleChoice(t, t1, inc, i);
    }
    IdleSteps(t1.w, inc, Check(t1, inc).value, stage1, |inc.files|);
    AllSteps(t1.w, inc, Check(t1, inc).value, stage1);
  }

  lemma AllSteps(w: World, inc: Incoming, choices: seq<Choice>, stage: Stage)
    requires StageFor(w, inc, choices, stage)
    ensures StepsOf(w, inc, choices, stage) == StepsUpTo(w, inc, choices, stage, |choices|)
  {
    hide StageFor;
  }

  lemma CompleteUnderway(t: Target, inc: Incoming, tree: Tree)
    requires |inc.files| == |inc.payload| && AdmitSelectionOk(t, inc) && Through(t, inc, tree, |inc.files|)
    ensures Underway(t, inc, tree)
  {
    hide Underway;
  }

  lemma IdleChoice(t: Target, t1: Target, inc: Incoming, i: nat)
    requires SecondLook(t, t1, inc) && Through(t, inc, t1.tree, |inc.files|) && Accepted(t1, inc) &&
             AdmitSelectionOk(t1, inc)
    requires AdmissionOf(t1, inc).inv == t1.inv + ExtraOf(t, inc) && i < |inc.files|
    ensures Check(t1, inc).Ok? && i < |Check(t1, inc).value|
    ensures Check(t1, inc).value[i].present && Check(t1, inc).value[i].extensions == []
  {
    hide AdmitSelection, Check, Accepted, InventoryOf, Dealt, Present, Underway, MustGrow, Extensions, AllOf, Stale,
         SecondLook;
    ChoiceAt(t1, inc, i);
    PresentAgainLook(t, t1, inc, i);
    InLook(t, t1, inc);
    forall c | c in AdmissionOf(t1, inc).inv
      ensures !MustGrow(t1, inc, i, c)
    {
      NothingGrows(t, t1, inc, |inc.files|, i, c);
    }
    NoExtensions(t1, inc, i, AdmissionOf(t1, inc).inv);
  }

  lemma InLook(t: Target, t1: Target, inc: Incoming)
    requires SecondLook(t, t1, inc)
    ensures |inc.files| == |inc.payload| && AdmitSelectionOk(t, inc)
  {
    hide AdmitSelection, Accepted, InventoryOf, Underway;
  }

  lemma {:induction false} IdleSteps(w: World, inc: Incoming, choices: seq<Choice>, stage: Stage, n: nat)
    requires StageFor(w, inc, choices, stage) && n <= |choices|
    requires forall i | 0 <= i < |choices| :: choices[i].present && choices[i].extensions == []
    ensures StepsUpTo(w, inc, choices, stage, n) == []
  {
    if n > 0 {
      IdleSteps(w, inc, choices, stage, n - 1);
      assert StepsFor(w, inc, choices, stage, n - 1) == [];
    }
  }
}
