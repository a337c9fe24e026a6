// What inspection finds at a destination that holds a whole incoming conversation: internal/session/publish.go and
// inspect.go together.

module EndToEnd {
  import opened Model
  import opened Format
  import opened Rollout
  import opened Cutoff
  import opened Inspect
  import opened Lineage
  import opened Conflicts
  import opened Steps
  import opened NonInterference
  import opened Schedule
  import opened Comparison
  import opened Planning
  import opened Publication
  import opened Retry
  import opened Convergence

  /** Inspection of the destination under the transfer's own limits. */
  function Look(t: Target): Env {
    Env(t.w, t.tree, t.inv, t.limits, false)
  }

  /** Every representation the check accepted, and that need not grow, is read as the incoming file. */
  lemma FitReads(t: Target, inc: Incoming, i: nat, c: Candidate)
    requires Accepted(t, inc) && i < |inc.files| == |inc.payload| && AdmitSelectionOk(t, inc)
    requires c in AdmissionOf(t, inc).inv && c.rollout == inc.files[i].rollout && !MustGrow(t, inc, i, c)
    ensures c.path in t.tree && c.thread == inc.files[i].thread
    ensures var r := ReadCandidate(Look(t), c, CutoffFor(inc, i)); r.Ok? && SameHistory(inc.files[i], r.value)
  {
    hide AdmitSelection, Accepted, Check, Compare, Read, ValidIncoming, PrerequisitePath, Sufficient, CutoffFor,
         SameHistory, Growing, Extensions, Present;
    ChoiceAt(t, inc, i);
    AcceptedLossless(t, inc);
    assert Fits(t, inc, i, c);
    CompareFacts(t.w, t.limits, inc, i, t.tree[c.path], c);
    ReadSufficient(t.w, t.limits, inc, i, t.tree[c.path], c);
  }

  /** Representations that are all read as the incoming file agree on it. */
  lemma AllAgree(t: Target, inc: Incoming, i: nat, cs: seq<Candidate>, end: Option<HistoryPosition>)
    requires i < |inc.files| && cs != []
    requires forall c | c in cs ::
               var r := ReadCandidate(Look(t), c, end); r.Ok? && SameHistory(inc.files[i], r.value)
    ensures Agree(Look(t), cs, end).Ok? && SameHistory(inc.files[i], Agree(Look(t), cs, end).value)
    ensures Agree(Look(t), cs, end) == ReadCandidate(Look(t), cs[0], end)
  {
    hide ReadCandidate, Agree;
    assert cs[0] in cs;
    AgreeFacts(Look(t), cs, end);
  }

  /** The i-th inherited rollout is at the destination, and every representation of it serves the cutoff at which the
      next one continues it. */
  ghost predicate Reachable(t: Target, inc: Incoming, i: nat)
    requires i < |inc.files|
  {
    var cs := ByRollout(t.inv, inc.files[i].rollout);
    cs != [] && Agree(Look(t), cs, CutoffFor(inc, i)).Ok? &&
    SameHistory(inc.files[i], Agree(Look(t), cs, CutoffFor(inc, i)).value)
  }

  /** Nothing remains to be done for the i-th file. */
  ghost predicate Idle(t: Target, inc: Incoming, i: nat)
    requires AdmitSelectionOk(t, inc) && i < |inc.files| == |inc.payload|
  {
    Present(inc, AdmissionOf(t, inc), i) && forall c | c in AdmissionOf(t, inc).inv :: !MustGrow(t, inc, i, c)
  }

  /** The candidates of an inherited rollout are all in the inventory. */
  lemma PrefixListed(t: Target, inc: Incoming, i: nat)
    requires Accepted(t, inc) && i < |inc.files| == |inc.payload| && AdmitSelectionOk(t, inc) && inc.files[i].prefix
    ensures forall c: Candidate | c.rollout == inc.files[i].rollout :: c in AdmissionOf(t, inc).inv <==> c in t.inv
  {
    hide AdmitSelection, Check, ParseName, ManagedPath, PrerequisitePath, ValidFile, Joined;
    AcceptedLossless(t, inc);
    AdmissionFacts(t, inc);
    PrefixUnlessLast(t.w, t.limits, inc, i);
    var a, n := AdmissionOf(t, inc), |t.inv|;
    forall c: Candidate | c.rollout == inc.files[i].rollout
      ensures c in a.inv <==> c in t.inv
    {
      if c in a.inv {
        EitherPart(a.inv, n, c);
      }
      if c in t.inv {
        assert c in a.inv[..n];
      }
    }
  }

  lemma IdleReachable(t: Target, inc: Incoming, i: nat)
    requires Accepted(t, inc) && i < |inc.files| == |inc.payload| && AdmitSelectionOk(t, inc)
    requires Idle(t, inc, i) && inc.files[i].prefix
    ensures Reachable(t, inc, i)
  {
    hide AdmitSelection, Accepted, MustGrow, Agree, ReadCandidate, CutoffFor, SameHistory;
    var cs := ByRollout(t.inv, inc.files[i].rollout);
    PrefixListed(t, inc, i);
    var c :| c in AdmissionOf(t, inc).inv && Usable(inc, i, c);
    assert c in cs;
    forall d | d in cs
      ensures ReadCandidate(Look(t), d, CutoffFor(inc, i)).Ok?
      ensures SameHistory(inc.files[i], ReadCandidate(Look(t), d, CutoffFor(inc, i)).value)
    {
      FitReads(t, inc, i, d);
    }
    AllAgree(t, inc, i, cs, CutoffFor(inc, i));
  }

  // ---- the walk over a published conversation ----

  ghost function RolloutsAbove(inc: Incoming, i: nat): set<string>
    requires i < |inc.files|
  {
    set j | i < j < |inc.files| :: inc.files[j].rollout
  }

  lemma RolloutsBelow(inc: Incoming, i: nat)
    requires 0 < i < |inc.files| && Distinct(inc.files)
    ensures RolloutsAbove(inc, i - 1) == RolloutsAbove(inc, i) + {inc.files[i].rollout}
    ensures inc.files[i].rollout !in RolloutsAbove(inc, i)
  {
  }

  lemma LastAbove(inc: Incoming)
    requires inc.files != []
    ensures RolloutsAbove(inc, |inc.files| - 1) == {}
  {
  }

  lemma NextBelow(t: Target, inc: Incoming, i: nat)
    requires ValidIncoming(t.w, t.limits, inc) && 0 < i < |inc.files|
    ensures inc.files[i].meta.base.Some? && inc.files[i - 1].prefix
    ensures CutoffFor(inc, i - 1) == inc.files[i].meta.base &&
            inc.files[i].meta.base.value.rollout == inc.files[i - 1].rollout
  {
    hide ValidFile, Joined, Distinct;
    PrefixUnlessLast(t.w, t.limits, inc, i - 1);
  }

  lemma SameLineageNext(inc: Incoming, i: nat, rest: Result<seq<File>>, chosen: File)
    requires 0 < i < |inc.files| && rest.Ok? && SameLineage(inc.files[..i], rest.value) &&
             SameHistory(inc.files[i], chosen)
    ensures Append(rest, [chosen]).Ok? && SameLineage(inc.files[..i + 1], Append(rest, [chosen]).value)
  {
    hide SameHistory;
  }

  lemma SameLineageFirst(inc: Incoming, chosen: File)
    requires inc.files != [] && SameHistory(inc.files[0], chosen)
    ensures SameLineage(inc.files[..1], [chosen])
  {
    hide SameHistory;
  }

  /** From any file of the published conversation the walk finds it and everything it inherits. */
  lemma {:induction false} WalkFinds(t: Target, inc: Incoming, u: set<string>, sel: Option<Selection>, i: nat,
                                     next: seq<Candidate>)
    requires ValidIncoming(t.w, t.limits, inc) && i < |inc.files|
    requires forall j | 0 <= j < i :: Reachable(t, inc, j)
    requires next != [] && Covers(u, t.inv) && Covers(u, next) && RolloutsAbove(inc, i) <= u
    requires next[0].rollout == inc.files[i].rollout
    requires Agree(Look(t), next, CutoffFor(inc, i)).Ok?
    requires SameHistory(inc.files[i], Agree(Look(t), next, CutoffFor(inc, i)).value)
    requires i == |inc.files| - 1 ==> MatchesSelection(sel, Agree(Look(t), next, CutoffFor(inc, i)).value)
    ensures var r := Walk(Look(t), u, sel, next, CutoffFor(inc, i), RolloutsAbove(inc, i), |inc.files| - 1 - i);
            r.Ok? && SameLineage(inc.files[..i + 1], r.value)
    decreases i
  {
    hide Agree, Walk, MatchesSelection, ByRollout, ValidFile, Joined, Distinct, SameLineage, RolloutsAbove, CutoffFor,
         Append;
    var env, seen, count := Look(t), RolloutsAbove(inc, i), |inc.files| - 1 - i;
    var chosen := Agree(env, next, CutoffFor(inc, i)).value;
    Unseen(inc, i);
    WalkStops(env, u, sel, next, CutoffFor(inc, i), seen, count);
    if i == 0 {
      SameLineageFirst(inc, chosen);
    } else {
      NextBelow(t, inc, i);
      RolloutsBelow(inc, i);
      var parents := ByRollout(t.inv, inc.files[i - 1].rollout);
      assert Reachable(t, inc, i - 1);
      assert parents[0] in parents && next[0] in next;
      WalkGoes(env, u, sel, next, CutoffFor(inc, i), seen, count, chosen);
      WalkFinds(t, inc, u, sel, i - 1, parents);
      SameLineageNext(inc, i, Walk(env, u, sel, parents, CutoffFor(inc, i - 1), RolloutsAbove(inc, i - 1), count + 1),
        chosen);
    }
  }

  lemma Unseen(inc: Incoming, i: nat)
    requires i < |inc.files| && Distinct(inc.files)
    ensures inc.files[i].rollout !in RolloutsAbove(inc, i)
  {
  }

  // ---- the conversation a row or the absence of one names ----

  /** A row that agrees with the publication: none where the check found none, the complete conversation the check
      found selected, or any stored representation of the complete conversation. */
  predicate ConsistentRow(t: Target, inc: Incoming, sel: Option<Selection>)
    requires inc.files != []
  {
    match sel
    case None => t.sel.None?
    case Some(row) =>
      row.mode == Main(inc).meta.mode && row.archived == HasPrefix(row.path, "archived_sessions/") &&
      !PrerequisitePath(row.path) && (sel == t.sel || NamesMain(t, inc, row.path))
  }

  predicate NamesMain(t: Target, inc: Incoming, path: string)
    requires inc.files != []
  {
    path in t.tree && Listed(path) && ValidRelative(path) && IdsOf(path).rollout == Main(inc).rollout
  }

  /** Candidates the check accepted for the complete conversation. */
  predicate MainCandidates(t: Target, inc: Incoming, cs: seq<Candidate>)
    requires AdmitSelectionOk(t, inc)
  {
    cs != [] && forall c | c in cs :: c in AdmissionOf(t, inc).inv && c.rollout == Main(inc).rollout
  }

  lemma MainAccepted(t: Target, inc: Incoming, c: Candidate)
    requires Accepted(t, inc) && AdmitSelectionOk(t, inc)
    requires c in AdmissionOf(t, inc).inv && c.rollout == Main(inc).rollout
    ensures c.thread == Main(inc).thread == inc.thread
  {
    hide AdmitSelection, Check, Compare, ValidFile, Joined, Distinct, Extensions, Present;
    AcceptedLossless(t, inc);
    ChoiceAt(t, inc, |inc.files| - 1);
    assert Fits(t, inc, |inc.files| - 1, c);
  }

  lemma ListedAdmitted(t: Target, inc: Incoming, c: Candidate)
    requires AdmitSelectionOk(t, inc) && InventoryOf(t.tree, t.inv) && c in t.inv
    ensures c in AdmissionOf(t, inc).inv && Listed(c.path) && IdsOf(c.path) == c && c.path in t.tree
  {
    hide AdmitSelection, ParseName, ManagedPath;
    AdmissionFacts(t, inc);
    assert c in AdmissionOf(t, inc).inv[..|t.inv|];
  }

  lemma UnrowedConversations(t: Target, inc: Incoming)
    requires Accepted(t, inc) && AdmitSelectionOk(t, inc) && t.sel.None?
    requires Present(inc, AdmissionOf(t, inc), |inc.files| - 1)
    ensures MainCandidates(t, inc, Conversations(t.inv, inc.thread))
  {
    hide ParseName, ManagedPath, PrerequisitePath, Check, ValidFile, Joined, Distinct, AllFit;
    AcceptedLossless(t, inc);
    AcceptedFacts(t, inc);
    var a := AdmissionOf(t, inc);
    PrefixUnlessLast(t.w, t.limits, inc, |inc.files| - 1);
    var c :| c in a.inv && Usable(inc, |inc.files| - 1, c);
    MainAccepted(t, inc, c);
    assert c in Conversations(t.inv, inc.thread);
  }

  lemma FormsOfMain(t: Target, inc: Incoming, path: string)
    requires AdmitSelectionOk(t, inc) && InventoryOf(t.tree, t.inv) && SelectablePath(path)
    requires ParseName(path).Some? && ParseName(path).value.rollout == Main(inc).rollout
    requires Forms(t.inv, path) != []
    ensures MainCandidates(t, inc, Forms(t.inv, path))
  {
    hide AdmitSelection, ParseName, ManagedPath, PrerequisitePath, TrimSuffix, ValidRelative, Filter;
    SelectableForms(path);
    forall c | c in Forms(t.inv, path)
      ensures c in AdmissionOf(t, inc).inv && c.rollout == Main(inc).rollout
    {
      ListedAdmitted(t, inc, c);
      FormsAlike(c.path, path);
    }
  }

  /** A row naming a stored representation of the main rollout selects accepted candidates. */
  lemma NamedMain(t: Target, inc: Incoming, row: Selection)
    requires AdmitSelectionOk(t, inc) && InventoryOf(t.tree, t.inv)
    requires !PrerequisitePath(row.path) && NamesMain(t, inc, row.path)
    ensures SelectedForms(Look(t), row, inc.thread).Ok?
    ensures MainCandidates(t, inc, SelectedForms(Look(t), row, inc.thread).value)
  {
    hide AdmitSelection, ParseName, ManagedPath, PrerequisitePath, TrimSuffix, ValidRelative, Filter, MainCandidates;
    ParsedSuffix(row.path);
    PathOfIds(row.path);
    assert IdsOf(row.path) in Forms(t.inv, row.path);
    FormsOfMain(t, inc, row.path);
  }

  lemma SelectionAdmitted(t: Target, inc: Incoming)
    requires AdmitSelectionOk(t, inc) && t.sel.Some? && !PrerequisitePath(t.sel.value.path)
    ensures SelectablePath(t.sel.value.path) && SelectedCandidate(t.sel.value, Main(inc)).Some?
    ensures SelectedCandidate(t.sel.value, Main(inc)).value.rollout == Main(inc).rollout
    ensures t.sel.value.mode == Main(inc).meta.mode
    ensures Forms(t.inv, t.sel.value.path) == [] ==>
              AdmissionOf(t, inc).inv ==
              t.inv + PresentForms(t.tree, t.sel.value.path, SelectedCandidate(t.sel.value, Main(inc)).value) &&
              PresentForms(t.tree, t.sel.value.path, SelectedCandidate(t.sel.value, Main(inc)).value) != []
  {
    hide ParseName, ManagedPath, PrerequisitePath, ValidRelative, Forms;
  }

  /** The row the check found selects accepted candidates. */
  lemma CheckedMain(t: Target, inc: Incoming)
    requires Accepted(t, inc) && AdmitSelectionOk(t, inc) && t.sel.Some? && !PrerequisitePath(t.sel.value.path)
    ensures SelectedForms(Look(t), t.sel.value, inc.thread).Ok?
    ensures MainCandidates(t, inc, SelectedForms(Look(t), t.sel.value, inc.thread).value)
  {
    hide AdmitSelection, ParseName, ManagedPath, PrerequisitePath, TrimSuffix, ValidRelative, Filter, Check, ValidFile,
         Joined, Distinct, SelectedCandidate, SelectablePath, LegacyForms, PresentForms;
    AcceptedLossless(t, inc);
    SelectionAdmitted(t, inc);
    var path := t.sel.value.path;
    if Forms(t.inv, path) != [] {
      SelectableForms(path);
      var c := Forms(t.inv, path)[0];
      assert c in Forms(t.inv, path);
      FormsAlike(c.path, path);
      ParsedCandidate(t, inc);
      FormsOfMain(t, inc, path);
    } else {
      LegacyMain(t, inc);
    }
  }

  lemma ParsedCandidate(t: Target, inc: Incoming)
    requires inc.files != [] && t.sel.Some?
    ensures ParseName(t.sel.value.path).Some? ==>
            SelectedCandidate(t.sel.value, Main(inc)) == ParseName(t.sel.value.path)
    ensures ParseName(t.sel.value.path).None? && SelectedCandidate(t.sel.value, Main(inc)).Some? ==>
              t.sel.value.mode == "legacy" &&
              SelectedCandidate(t.sel.value, Main(inc)).value == Candidate(t.sel.value.path, Main(inc).thread,
                Main(inc).thread)
  {
    hide ParseName;
  }

  lemma SameForms(tree: Tree, path: string, id: string)
    ensures LegacyForms(tree, path, id) == PresentForms(tree, path, Candidate(path, id, id))
  {
    hide TrimSuffix;
  }

  lemma LegacyMain(t: Target, inc: Incoming)
    requires Accepted(t, inc) && AdmitSelectionOk(t, inc) && t.sel.Some? && !PrerequisitePath(t.sel.value.path)
    requires Forms(t.inv, t.sel.value.path) == []
    ensures t.sel.value.mode == "legacy" && SelectablePath(t.sel.value.path)
    ensures MainCandidates(t, inc, LegacyForms(t.tree, t.sel.value.path, inc.thread))
  {
    hide AdmitSelection, ParseName, ManagedPath, PrerequisitePath, TrimSuffix, ValidRelative, Filter, Check, ValidFile,
         Joined, Distinct, SelectedCandidate, SelectablePath, LegacyForms, PresentForms;
    AcceptedLossless(t, inc);
    SelectionAdmitted(t, inc);
    ParsedCandidate(t, inc);
    var path, c := t.sel.value.path, SelectedCandidate(t.sel.value, Main(inc)).value;
    var added := PresentForms(t.tree, path, c);
    AddedForm(t, inc, c, added[0]);
    SelectableForms(path);
    AddedPath(t, path, c, added[0]);
    FormsAlike(added[0].path, path);
    assert ParseName(path).None?;
    SameForms(t.tree, path, inc.thread);
    assert forall d | d in added :: d in AdmissionOf(t, inc).inv;
  }

  lemma AddedPath(t: Target, path: string, c: Candidate, d: Candidate)
    requires d in PresentForms(t.tree, path, c) && SelectablePath(path)
    ensures TrimSuffix(d.path, ".zst") == TrimSuffix(path, ".zst") && ManagedPath(d.path)
  {
    hide ParseName, PrerequisitePath, ManagedPath, ValidRelative, TrimSuffix;
    SelectableForms(path);
    FormsOf(path, d.path);
    FormsAlike(d.path, path);
  }

  /** The candidates from which inspection starts. */
  function Starting(env: Env, sel: Option<Selection>, id: string): Result<seq<Candidate>> {
    if sel.Some? then SelectedForms(env, sel.value, id) else Ok(Conversations(env.inv, id))
  }

  lemma StartsWith(env: Env, sel: Option<Selection>, id: string)
    requires Starting(env, sel, id).Ok? && Starting(env, sel, id).value != []
    requires var main := Starting(env, sel, id).value; forall c | c in main ::
              c.thread == id && c.rollout == main[0].rollout
    ensures MainForms(env, sel, id) == Starting(env, sel, id)
  {
    hide SelectedForms, Conversations;
    var main := Starting(env, sel, id).value;
    CheckMainHolds(main, id, main[0].rollout);
  }

  lemma StartingMain(t: Target, inc: Incoming, sel: Option<Selection>)
    requires Accepted(t, inc) && AdmitSelectionOk(t, inc) && ConsistentRow(t, inc, sel)
    requires Present(inc, AdmissionOf(t, inc), |inc.files| - 1)
    ensures Starting(Look(t), sel, inc.thread).Ok?
    ensures MainCandidates(t, inc, Starting(Look(t), sel, inc.thread).value)
  {
    hide AdmitSelection, Accepted, PrerequisitePath, Present, SelectedForms, Conversations, NamesMain, MainCandidates;
    AcceptedLossless(t, inc);
    if sel.None? {
      UnrowedConversations(t, inc);
    } else if sel == t.sel {
      CheckedMain(t, inc);
    } else {
      NamedMain(t, inc, sel.value);
    }
  }

  /** Whatever consistent row the home has, inspection starts from the published conversation. */
  lemma MainFound(t: Target, inc: Incoming, sel: Option<Selection>)
    requires Accepted(t, inc) && AdmitSelectionOk(t, inc) && ConsistentRow(t, inc, sel)
    requires Present(inc, AdmissionOf(t, inc), |inc.files| - 1)
    ensures MainForms(Look(t), sel, inc.thread).Ok?
    ensures MainCandidates(t, inc, MainForms(Look(t), sel, inc.thread).value)
  {
    hide AdmitSelection, Accepted, Present, Starting, ConsistentRow, Look, MainForms;
    StartingMain(t, inc, sel);
    var main := Starting(Look(t), sel, inc.thread).value;
    forall c | c in main
      ensures c.thread == inc.thread && c.rollout == main[0].rollout
    {
      MainAccepted(t, inc, c);
      assert main[0] in main;
    }
    StartsWith(Look(t), sel, inc.thread);
  }

  // ---- the end-to-end theorem ----

  lemma MainReads(t: Target, inc: Incoming, main: seq<Candidate>)
    requires Accepted(t, inc) && |inc.files| == |inc.payload| && AdmitSelectionOk(t, inc) &&
             MainCandidates(t, inc, main)
    requires Idle(t, inc, |inc.files| - 1)
    ensures Agree(Look(t), main, None).Ok? && SameHistory(Main(inc), Agree(Look(t), main, None).value)
    ensures Agree(Look(t), main, None).value.source == main[0].path
    ensures CutoffFor(inc, |inc.files| - 1).None?
  {
    hide AdmitSelection, Accepted, Agree, ReadCandidate, MustGrow, SameHistory, Present;
    var i := |inc.files| - 1;
    forall c | c in main
      ensures ReadCandidate(Look(t), c, CutoffFor(inc, i)).Ok?
      ensures SameHistory(inc.files[i], ReadCandidate(Look(t), c, CutoffFor(inc, i)).value)
    {
      FitReads(t, inc, i, c);
    }
    AllAgree(t, inc, i, main, CutoffFor(inc, i));
    SourceOf(Look(t), main);
  }

  lemma SourceOf(env: Env, cs: seq<Candidate>)
    requires cs != [] && Agree(env, cs, None).Ok?
    ensures Agree(env, cs, None).value.source == cs[0].path
  {
    hide Agree;
    AgreeSource(env, cs);
  }

  /** At a destination where the check accepts the conversation and finds nothing left to do, inspecting the thread,
      with no row or any consistent one, finds exactly the incoming rollouts, sizes, digests and prefix flags. */
  lemma IdleResolves(t: Target, inc: Incoming, sel: Option<Selection>)
    requires Accepted(t, inc) && |inc.files| == |inc.payload| && AdmitSelectionOk(t, inc) && ConsistentRow(t, inc, sel)
    requires forall i | 0 <= i < |inc.files| :: Idle(t, inc, i)
    ensures var r := Resolve(Look(t), inc.thread, sel, sel);
            r.Ok? && r.value.thread == inc.thread && SameLineage(inc.files, r.value.files)
  {
    hide AdmitSelection, Accepted, Agree, MainForms, Walk, MatchesSelection, Idle, ValidFile, Joined, Distinct,
         SameHistory, Reachable, MainCandidates, Universe, RolloutsAbove, ConsistentRow;
    AcceptedLossless(t, inc);
    var n := |inc.files|;
    IdlePresent(t, inc, n - 1);
    MainFound(t, inc, sel);
    var main := MainForms(Look(t), sel, inc.thread).value;
    MainReads(t, inc, main);
    forall i | 0 <= i < n - 1
      ensures Reachable(t, inc, i)
    {
      PrefixUnlessLast(t.w, t.limits, inc, i);
      IdleReachable(t, inc, i);
    }
    MainMatches(t, inc, sel, main);
    LastAbove(inc);
    MainRollout(t, inc, main);
    WalkFinds(t, inc, Universe(Look(t), main), sel, n - 1, main);
    assert inc.files[..n] == inc.files;
  }

  lemma IdlePresent(t: Target, inc: Incoming, i: nat)
    requires AdmitSelectionOk(t, inc) && i < |inc.files| == |inc.payload| && Idle(t, inc, i)
    ensures Present(inc, AdmissionOf(t, inc), i)
  {
    hide AdmitSelection, Present, MustGrow;
  }

  lemma MainRollout(t: Target, inc: Incoming, main: seq<Candidate>)
    requires AdmitSelectionOk(t, inc) && MainCandidates(t, inc, main)
    ensures main != [] && main[0].rollout == Main(inc).rollout
  {
    hide AdmitSelection;
    assert main[0] in main;
  }

  lemma MainMatches(t: Target, inc: Incoming, sel: Option<Selection>, main: seq<Candidate>)
    requires inc.files != [] && InventoryOf(t.tree, t.inv) && ConsistentRow(t, inc, sel)
    requires MainForms(Look(t), sel, inc.thread) == Ok(main) && main != []
    requires Agree(Look(t), main, None).Ok? && SameHistory(Main(inc), Agree(Look(t), main, None).value)
    requires Agree(Look(t), main, None).value.source == main[0].path
    ensures MatchesSelection(sel, Agree(Look(t), main, None).value)
  {
    hide Agree, ParseName, InventoryOf, TrimSuffix, SelectedForms, PrerequisitePath, ManagedPath, NamesMain;
    if sel.Some? {
      MainFormPath(Look(t), sel.value, inc.thread, main, main[0]);
      FormsAlike(main[0].path, sel.value.path);
    }
  }
}
