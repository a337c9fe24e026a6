// Every publication whose check succeeded is a safe run, wherever it stops: internal/session/publish.go.

module Publication {
  import opened Model
  import opened Format
  import opened Rollout
  import opened Inspect
  import opened Lineage
  import opened Conflicts
  import opened Steps
  import opened Schedule
  import opened Comparison
  import opened Planning

  // ---- each planned step is safe ----

  /** When the rollout is not present, all its listed files are managed prefixes of the complete conversation. */
  lemma AbsentMeans(t: Target, inc: Incoming, i: nat, q: string)
    requires Accepted(t, inc) && AdmitSelection(t, inc).Ok? && i < |inc.files|
    requires !Present(inc, AdmissionOf(t, inc), i)
    requires q in t.tree && Listed(q) && IdsOf(q).rollout == inc.files[i].rollout
    ensures !inc.files[i].prefix && PrerequisitePath(q) && For(inc, i, IdsOf(q))
    ensures |inc.files| == |inc.payload| && Grows(Visible(t.w, q, t.tree[q]), Stream(inc.payload[i], true))
  {
    hide AdmitSelection, Compare, ParseName, ManagedPath, PrerequisitePath, ValidIncoming, CollisionFree, Decoded,
         Check, Growing, Sufficient;
    AcceptedLossless(t, inc);
    AdmissionFacts(t, inc);
    ChoiceAt(t, inc, i);
    var a, c := AdmissionOf(t, inc), IdsOf(q);
    PathOfIds(q);
    assert c in t.inv;
    assert c in a.inv[..|t.inv|];
    assert Fits(t, inc, i, c);
    CompareFacts(t.w, t.limits, inc, i, t.tree[q], c);
    AbsentGrows(t.w, inc, i, t.tree[q], c, Compare(t.w, t.limits, inc, i, t.tree[q], c).value.0);
  }

  lemma AbsentGrows(w: World, inc: Incoming, i: nat, node: Node, c: Candidate, f: File)
    requires i < |inc.files| == |inc.payload|
    requires Growing(w, inc, i, node, c, f) || (Sufficient(w, inc, i, node, c) && !inc.files[i].prefix)
    ensures Grows(Visible(w, c.path, node), Stream(inc.payload[i], true))
  {
    hide Decoded, PrerequisitePath;
  }

  lemma LastIsMain(t: Target, inc: Incoming, i: nat)
    requires ValidIncoming(t.w, t.limits, inc) && i < |inc.files| && !inc.files[i].prefix
    ensures inc.files[i] == Main(inc)
  {
    hide ValidFile, Joined, Distinct;
    PrefixUnlessLast(t.w, t.limits, inc, i);
  }

  /** A new complete conversation is installed only when its thread has none and no row names one. */
  lemma NewConversation(t: Target, inc: Incoming, i: nat, q: string)
    requires Accepted(t, inc) && AdmitSelection(t, inc).Ok? && i < |inc.files|
    requires !Present(inc, AdmissionOf(t, inc), i) && !inc.files[i].prefix
    ensures t.sel.Some? ==> PrerequisitePath(t.sel.value.path)
    ensures q in t.tree && Listed(q) && IdsOf(q).thread == inc.files[i].thread ==> PrerequisitePath(q)
  {
    hide AdmitSelection, ParseName, ManagedPath, PrerequisitePath, ValidIncoming, CollisionFree, Check, AllFit;
    AcceptedLossless(t, inc);
    LastIsMain(t, inc, i);
    AdmissionFacts(t, inc);
    AcceptedFacts(t, inc);
    var a := AdmissionOf(t, inc);
    if q in t.tree && Listed(q) {
      assert IdsOf(q) in t.inv;
      PathOfIds(q);
      assert IdsOf(q) in a.inv[..|t.inv|];
      assert IdsOf(q) in a.inv;
    }
  }

  lemma PlannedSafe(t: Target, inc: Incoming, rows: Rows, i: nat, s: Step)
    requires Accepted(t, inc) && i < |inc.files| == |inc.payload| && AdmitSelection(t, inc).Ok?
    requires Planned(t, inc, i, s) && RowOf(rows, Main(inc).thread) == t.sel
    ensures Safe(t.w, t.tree, rows, s)
  {
    hide AdmitSelection, ParseName, ManagedPath, PrerequisitePath, ValidIncoming, Accepted, Decoded, MustGrow, Present,
         Encode;
    if s.Install? {
      AcceptedLossless(t, inc);
      ValidAt(t.w, t.limits, inc, i);
      InstallSafe(t, inc, rows, i, s);
    }
  }

  lemma InstallSafe(t: Target, inc: Incoming, rows: Rows, i: nat, s: Step)
    requires Accepted(t, inc) && i < |inc.files| == |inc.payload| && AdmitSelection(t, inc).Ok?
    requires s.Install? && Planned(t, inc, i, s) && RowOf(rows, Main(inc).thread) == t.sel
    requires PrerequisitePath(s.path) == inc.files[i].prefix
    ensures Safe(t.w, t.tree, rows, s)
  {
    hide AdmitSelection, ParseName, ManagedPath, PrerequisitePath, ValidIncoming, Accepted, Decoded, MustGrow, Present,
         Encode, Grows;
    forall q | q in t.tree && Listed(q) && IdsOf(q).rollout == IdsOf(s.path).rollout
      ensures q != s.path && Continued(t.w, t.tree, s.path, s.node, q)
    {
      AbsentMeans(t, inc, i, q);
    }
    if !PrerequisitePath(s.path) {
      AcceptedLossless(t, inc);
      LastIsMain(t, inc, i);
      NewConversation(t, inc, i, s.path);
      forall q | q in t.tree && Listed(q) && IdsOf(q).thread == IdsOf(s.path).thread
        ensures PrerequisitePath(q)
      {
        NewConversation(t, inc, i, q);
      }
    }
  }

  // ---- the planned steps are compatible in order ----

  lemma PlannedApart(t: Target, inc: Incoming, i: nat, j: nat, a: Step, b: Step)
    requires ValidIncoming(t.w, t.limits, inc) && i < j < |inc.files| == |inc.payload| && AdmitSelection(t, inc).Ok?
    requires Planned(t, inc, i, a) && Planned(t, inc, j, b)
    ensures Compatible(t.w, a, b)
  {
    hide AdmitSelection, ParseName, ManagedPath, PrerequisitePath, Decoded, MustGrow, Present, Encode, Describes,
         Joined;
    assert inc.files[i].rollout != inc.files[j].rollout;
    PrefixUnlessLast(t.w, t.limits, inc, i);
    ValidAt(t.w, t.limits, inc, i);
  }

  lemma PlannedTogether(t: Target, inc: Incoming, i: nat, a: Step, b: Step)
    requires ValidIncoming(t.w, t.limits, inc) && i < |inc.files| == |inc.payload| && AdmitSelection(t, inc).Ok?
    requires Accepted(t, inc)
    requires Planned(t, inc, i, a) && Planned(t, inc, i, b) && a.Extend? && (b.Extend? ==> a.path != b.path)
    ensures Compatible(t.w, a, b)
  {
    hide AdmitSelection, ParseName, ManagedPath, PrerequisitePath, Decoded, MustGrow, Present, Encode, Describes,
         Joined, Accepted, ValidIncoming;
    if b.Install? {
      ValidAt(t.w, t.limits, inc, i);
      AbsentMeans(t, inc, i, a.path);
    }
  }

  lemma InOrderConcat(w: World, a: seq<Step>, b: seq<Step>)
    requires InOrder(w, a) && InOrder(w, b)
    requires forall x, y | x in a && y in b :: Compatible(w, x, y)
    ensures InOrder(w, a + b)
  {
    hide Compatible;
  }

  ghost predicate DistinctSources(s: seq<File>) {
    forall j, k | 0 <= j < k < |s| :: s[j].source != s[k].source
  }

  lemma PrependSource(f: File, s: seq<File>)
    requires DistinctSources(s) && forall g | g in s :: g.source != f.source
    ensures DistinctSources([f] + s)
  {
  }

  /** The files to grow have different paths. */
  lemma {:induction false} ExtensionsDistinct(t: Target, inc: Incoming, i: nat, from: nat)
    requires Accepted(t, inc) && i < |inc.files| == |inc.payload| && AdmitSelection(t, inc).Ok?
    requires from <= |AdmissionOf(t, inc).inv|
    ensures DistinctSources(Extensions(t, inc, i, AdmissionOf(t, inc).inv[from..]))
    decreases |AdmissionOf(t, inc).inv| - from
  {
    hide AdmitSelection, MustGrow, Compare, Accepted, DistinctSources;
    var a := AdmissionOf(t, inc);
    if from < |a.inv| {
      ExtensionsDistinct(t, inc, i, from + 1);
      assert a.inv[from..][1..] == a.inv[from + 1..];
      if MustGrow(t, inc, i, a.inv[from]) {
        FirstExtension(t, inc, i, from);
      } else {
        assert [] + Extensions(t, inc, i, a.inv[from + 1..]) == Extensions(t, inc, i, a.inv[from + 1..]);
      }
    } else {
      NoSources();
    }
  }

  lemma NoSources()
    ensures DistinctSources([])
  {
  }

  lemma FirstExtension(t: Target, inc: Incoming, i: nat, from: nat)
    requires Accepted(t, inc) && i < |inc.files| == |inc.payload| && AdmitSelection(t, inc).Ok?
    requires var a := AdmissionOf(t, inc);
             from < |a.inv| && MustGrow(t, inc, i, a.inv[from]) &&
               DistinctSources(Extensions(t, inc, i, a.inv[from + 1..]))
    ensures DistinctSources(Extensions(t, inc, i, AdmissionOf(t, inc).inv[from..]))
  {
    hide AdmitSelection, Compare, Accepted, DistinctSources;
    var a := AdmissionOf(t, inc);
    var c := a.inv[from];
    assert a.inv[from..][1..] == a.inv[from + 1..];
    GrowingCandidate(t, inc, i, c);
    var f := Compare(t.w, t.limits, inc, i, t.tree[c.path], c).value.0;
    var rest := Extensions(t, inc, i, a.inv[from + 1..]);
    ExtensionsAre(t, inc, i, a.inv[from + 1..]);
    forall g | g in rest
      ensures g.source != f.source
    {
      var d :| d in a.inv[from + 1..] && MustGrow(t, inc, i, d) &&
        g == Compare(t.w, t.limits, inc, i, t.tree[d.path], d).value.0;
      GrowingCandidate(t, inc, i, d);
      Unrepeated(t, inc, i, from, d);
    }
    PrependSource(f, rest);
  }

  lemma PartOf(s: seq<Candidate>, n: nat, k: nat)
    requires n <= |s| && k < |s|
    ensures if k < n then s[..n][k] == s[k] else s[k] in s[n..]
  {
    if k >= n {
      assert s[n..][k - n] == s[k];
    }
  }

  /** A candidate that must grow occurs once. */
  lemma Unrepeated(t: Target, inc: Incoming, i: nat, from: nat, d: Candidate)
    requires Accepted(t, inc) && i < |inc.files| == |inc.payload| && AdmitSelection(t, inc).Ok?
    requires var a := AdmissionOf(t, inc); from < |a.inv| && d in a.inv[from + 1..]
    requires Listed(AdmissionOf(t, inc).inv[from].path) && Listed(d.path)
    ensures d != AdmissionOf(t, inc).inv[from]
  {
    hide AdmitSelection, ParseName, ManagedPath, PrerequisitePath, ValidIncoming, Check;
    AcceptedLossless(t, inc);
    AdmissionFacts(t, inc);
    var a, n := AdmissionOf(t, inc), |t.inv|;
    var k :| from < k < |a.inv| && a.inv[k] == d;
    PartOf(a.inv, n, k);
    PartOf(a.inv, n, from);
  }

  lemma StepsForInOrder(t: Target, inc: Incoming, stage: Stage, i: nat)
    requires Accepted(t, inc) && StageFor(t.w, inc, Check(t, inc).value, stage) && i < |inc.files|
    ensures InOrder(t.w, StepsFor(t.w, inc, Check(t, inc).value, stage, i))
  {
    hide AdmitSelection, Accepted, Check, Planned, Encode, Compatible, Extensions, AllOf, ValidIncoming;
    StepsForPlanned(t, inc, stage, i);
    ChoiceAt(t, inc, i);
    AcceptedLossless(t, inc);
    var a, ch := AdmissionOf(t, inc), Check(t, inc).value[i];
    ExtensionsDistinct(t, inc, i, 0);
    assert a.inv[0..] == a.inv;
    var steps := StepsFor(t.w, inc, Check(t, inc).value, stage, i);
    forall j, k | 0 <= j < k < |steps|
      ensures Compatible(t.w, steps[j], steps[k])
    {
      assert steps[j] in steps && steps[k] in steps;
      PlannedTogether(t, inc, i, steps[j], steps[k]);
    }
  }

  /** The steps of the first n files, each planned for its file, are compatible in order. */
  lemma {:induction false} StepsUpToInOrder(t: Target, inc: Incoming, stage: Stage, n: nat)
    requires Accepted(t, inc) && StageFor(t.w, inc, Check(t, inc).value, stage) && n <= |inc.files|
    ensures AdmitSelection(t, inc).Ok? && |inc.files| == |inc.payload|
    ensures var steps := StepsUpTo(t.w, inc, Check(t, inc).value, stage, n);
            InOrder(t.w, steps) &&
            forall s | s in steps :: exists i | 0 <= i < n :: Planned(t, inc, i, s)
  {
    hide AdmitSelection, Accepted, Check, Planned, StepsFor, Compatible, Prepared, ValidIncoming;
    AcceptedFacts(t, inc);
    AcceptedLossless(t, inc);
    if n > 0 {
      var choices := Check(t, inc).value;
      var before, last := StepsUpTo(t.w, inc, choices, stage, n - 1), StepsFor(t.w, inc, choices, stage, n - 1);
      StepsUpToInOrder(t, inc, stage, n - 1);
      StepsForInOrder(t, inc, stage, n - 1);
      StepsForPlanned(t, inc, stage, n - 1);
      forall x, y | x in before && y in last
        ensures Compatible(t.w, x, y)
      {
        var i :| 0 <= i < n - 1 && Planned(t, inc, i, x);
        PlannedApart(t, inc, i, n - 1, x, y);
      }
      InOrderConcat(t.w, before, last);
    }
  }

  /** The steps of an accepted publication are safe from the start and compatible in the order they are made, so
      whatever number of them goes through, the run is safe. */
  lemma PublicationIsSafe(t: Target, inc: Incoming, stage: Stage, rows: Rows, k: nat)
    requires Accepted(t, inc) && StageFor(t.w, inc, Check(t, inc).value, stage) &&
             RowOf(rows, Main(inc).thread) == t.sel
    requires k <= |StepsOf(t.w, inc, Check(t, inc).value, stage)|
    ensures var steps := StepsOf(t.w, inc, Check(t, inc).value, stage);
            AllSafe(t.w, t.tree, rows, steps) && InOrder(t.w, steps) && SafeRun(t.w, t.tree, rows, steps[..k])
  {
    hide AdmitSelection, Accepted, Check, Planned, StepsUpTo, Safe, Compatible, StageFor;
    AcceptedFacts(t, inc);
    var steps := StepsOf(t.w, inc, Check(t, inc).value, stage);
    StepsUpToInOrder(t, inc, stage, |inc.files|);
    forall j | 0 <= j < |steps|
      ensures Safe(t.w, t.tree, rows, steps[j])
    {
      assert steps[j] in steps;
      var i :| 0 <= i < |inc.files| && Planned(t, inc, i, steps[j]);
      PlannedSafe(t, inc, rows, i, steps[j]);
    }
    RestStaysSafe(t.w, t.tree, rows, steps, k);
  }
}
