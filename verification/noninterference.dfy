// No step of any publication changes what inspection finds for any thread:
// internal/session/publish.go and inspect.go together.

module NonInterference {
  import opened Model
  import opened Format
  import opened Rollout
  import opened Cutoff
  import opened Inspect
  import opened Lineage
  import opened Steps

  /** A candidate list without regard to order. */
  predicate SameMembers(a: seq<Candidate>, b: seq<Candidate>) {
    (forall c | c in a :: c in b) && (forall c | c in b :: c in a)
  }

  lemma ListedKept(w: World, rows: Rows, s: Option<Step>, e0: Env, e1: Env, c: Candidate)
    requires Around(w, rows, s, e0, e1)
    ensures c in e0.inv ==> c in e1.inv
    ensures c in e1.inv ==> c in e0.inv || (s.Some? && c.path == s.value.path && Listed(c.path) && c == IdsOf(c.path))
  {
    hide ParseName, ManagedPath, PrerequisitePath, Safe, CollisionFree;
  }

  /** Conversations of a thread that has one are not touched. */
  lemma ConversationsKept(w: World, rows: Rows, s: Option<Step>, e0: Env, e1: Env, id: string)
    requires Around(w, rows, s, e0, e1) && Conversations(e0.inv, id) != []
    ensures SameMembers(Conversations(e0.inv, id), Conversations(e1.inv, id))
    ensures forall c | c in Conversations(e0.inv, id) ::
              c.path in e0.tree && c.path in e1.tree && e1.tree[c.path] == e0.tree[c.path]
  {
    hide ParseName, ManagedPath, PrerequisitePath, CollisionFree, Decoded;
    var a, b := Conversations(e0.inv, id), Conversations(e1.inv, id);
    assert a[0] in a;
    forall c: Candidate
      ensures c in a <==> c in b
    {
      ListedKept(w, rows, s, e0, e1, c);
      if s.Some? {
        NoNewConversation(w, rows, s.value, e0, a[0]);
      }
    }
  }

  lemma NoNewConversation(w: World, rows: Rows, s: Step, e: Env, c: Candidate)
    requires Safe(w, e.tree, rows, s) && InventoryOf(e.tree, e.inv) && c in e.inv && !PrerequisitePath(c.path)
    ensures Listed(s.path) && s.path !in e.tree && IdsOf(s.path).thread == c.thread ==> PrerequisitePath(s.path)
  {
    hide ParseName, ManagedPath, PrerequisitePath, Decoded;
  }

  predicate FormOf(p: string, path: string) {
    TrimSuffix(p, ".zst") == TrimSuffix(path, ".zst")
  }

  /** No step lands on a form of a path that a row names and that is there. */
  lemma NotAForm(w: World, rows: Rows, s: Option<Step>, e0: Env, e1: Env, id: string, main: seq<Candidate>)
    requires Around(w, rows, s, e0, e1) && id in rows
    requires SelectedForms(e0, rows[id], id) == Ok(main)
    requires forall c | c in main :: c.thread == id
    ensures s.Some? ==> !FormOf(s.value.path, rows[id].path)
  {
    hide ParseName, ManagedPath, PrerequisitePath, CollisionFree, Decoded, TrimSuffix, ValidRelative;
    var path := rows[id].path;
    SelectableSuffix(path);
    if s.Some? && FormOf(s.value.path, path) {
      FormsAlike(s.value.path, path);
      assert main[0] in main;
      MainFormPath(e0, rows[id], id, main, main[0]);
      FormsAlike(main[0].path, path);
      NoTwin(w, e0.tree, rows, s.value, main[0].path);
    }
  }

  /** A step never lands on a conversation whose identities another stored conversation carries. */
  lemma NoTwin(w: World, tree: Tree, rows: Rows, s: Step, q: string)
    requires Safe(w, tree, rows, s) && q in tree
    ensures !(SameIdentities(ParseName(q), ParseName(s.path)) && ManagedPath(q) && ManagedPath(s.path) &&
              !PrerequisitePath(q) && !PrerequisitePath(s.path))
  {
    hide ParseName, ManagedPath, PrerequisitePath, Decoded;
  }

  lemma MainFormPath(env: Env, sel: Selection, id: string, main: seq<Candidate>, c: Candidate)
    requires InventoryOf(env.tree, env.inv) && SelectedForms(env, sel, id) == Ok(main) && c in main
    ensures c.path in env.tree && FormOf(c.path, sel.path) && !PrerequisitePath(sel.path)
    ensures HasSuffix(TrimSuffix(sel.path, ".zst"), ".jsonl")
  {
    hide ParseName, ManagedPath, PrerequisitePath, ValidRelative;
    SelectableSuffix(sel.path);
    var t := TrimSuffix(sel.path, ".zst");
    NotCompressed(t);
    TrimForm(t);
  }

  /** The representations a row selects stay as they are. */
  lemma SelectedKept(w: World, rows: Rows, s: Option<Step>, e0: Env, e1: Env, id: string, main: seq<Candidate>)
    requires Around(w, rows, s, e0, e1) && id in rows
    requires SelectedForms(e0, rows[id], id) == Ok(main)
    requires forall c | c in main :: c.thread == id
    ensures SelectedForms(e1, rows[id], id).Ok? && SameMembers(main, SelectedForms(e1, rows[id], id).value)
    ensures forall c | c in main :: c.path in e0.tree && c.path in e1.tree && e1.tree[c.path] == e0.tree[c.path]
  {
    hide ParseName, ManagedPath, PrerequisitePath, CollisionFree, Decoded, TrimSuffix, ValidRelative;
    NotAForm(w, rows, s, e0, e1, id, main);
    var path := rows[id].path;
    forall c | c in main
      ensures c.path in e0.tree && c.path in e1.tree && e1.tree[c.path] == e0.tree[c.path]
    {
      MainFormPath(e0, rows[id], id, main, c);
    }
    forall c: Candidate
      ensures c in Forms(e0.inv, path) <==> c in Forms(e1.inv, path)
    {
      ListedKept(w, rows, s, e0, e1, c);
    }
    SameEmptiness(Forms(e0.inv, path), Forms(e1.inv, path));
    SelectableSuffix(path);
    if s.Some? {
      LegacyKept(s.value, e0, e1, path, id);
    }
  }

  lemma SameEmptiness(a: seq<Candidate>, b: seq<Candidate>)
    requires forall c: Candidate :: c in a <==> c in b
    ensures a == [] <==> b == []
  {
    if a != [] {
      assert a[0] in a;
    }
    if b != [] {
      assert b[0] in b;
    }
  }

  lemma LegacyKept(s: Step, e0: Env, e1: Env, path: string, id: string)
    requires e1.tree == ApplyStep(e0.tree, s) && !FormOf(s.path, path) && HasSuffix(TrimSuffix(path, ".zst"), ".jsonl")
    ensures LegacyForms(e0.tree, path, id) == LegacyForms(e1.tree, path, id)
  {
    var t := TrimSuffix(path, ".zst");
    NotCompressed(t);
    TrimForm(t);
    assert s.path != t && s.path != t + ".zst";
  }

  /** The representations of the conversation a resolvable thread names are the same before and after. */
  lemma MainKept(w: World, rows: Rows, s: Option<Step>, e0: Env, e1: Env, id: string)
    requires Around(w, rows, s, e0, e1) && MainForms(e0, RowOf(rows, id), id).Ok?
    ensures MainForms(e1, RowOf(rows, id), id).Ok?
    ensures var m0, m1 := MainForms(e0, RowOf(rows, id), id).value, MainForms(e1, RowOf(rows, id), id).value;
            SameMembers(m0, m1) && m1[0].rollout == m0[0].rollout &&
            forall c | c in m0 :: c.path in e0.tree && c.path in e1.tree && e1.tree[c.path] == e0.tree[c.path]
  {
    hide SelectedForms, Conversations, Around;
    var sel := RowOf(rows, id);
    MainFormsFacts(e0, sel, id);
    var m0 := MainForms(e0, sel, id).value;
    if sel.Some? {
      SelectedKept(w, rows, s, e0, e1, id, m0);
      SameEmptiness(m0, SelectedForms(e1, sel.value, id).value);
      CheckMainHolds(SelectedForms(e1, sel.value, id).value, id, m0[0].rollout);
      assert SelectedForms(e1, sel.value, id).value[0] in m0;
    } else {
      ConversationsKept(w, rows, s, e0, e1, id);
      SameEmptiness(m0, Conversations(e1.inv, id));
      CheckMainHolds(Conversations(e1.inv, id), id, m0[0].rollout);
      assert Conversations(e1.inv, id)[0] in m0;
    }
  }

  lemma {:induction false} CheckMainHolds(main: seq<Candidate>, id: string, rollout: string)
    requires forall c | c in main :: c.thread == id && c.rollout == rollout
    ensures CheckMain(main, id, rollout) == Ok(())
  {
    if main != [] {
      CheckMainHolds(main[1..], id, rollout);
    }
  }

  lemma CandidateMain(env: Env, c: Candidate)
    requires env.limits.Valid() && ReadCandidate(env, c, None).Ok?
    ensures var f := ReadCandidate(env, c, None).value;
            ReadFrom(env, f) && f.rollout == c.rollout && f.thread == c.thread && !f.prefix && f.source == c.path
  {
    hide Read, Describes, AdmittedMetadata;
    ReadFacts(env.w, env.tree[c.path], c, None, env.limits, env.snapshot);
  }

  /** Reading unchanged main representations in another order finds the same conversation. */
  lemma MainAgreeKept(w: World, rows: Rows, s: Option<Step>, e0: Env, e1: Env, m0: seq<Candidate>, m1: seq<Candidate>)
    requires Around(w, rows, s, e0, e1) && m0 != [] && m1 != [] && SameMembers(m0, m1) && m0[0].rollout == m1[0].rollout
    requires forall c | c in m0 :: c.path in e0.tree && c.path in e1.tree && e1.tree[c.path] == e0.tree[c.path]
    requires Agree(e0, m0, None).Ok?
    ensures Agree(e1, m1, None).Ok? && SameHistory(Agree(e0, m0, None).value, Agree(e1, m1, None).value)
    ensures Agree(e1, m1, None).value.source == m1[0].path
  {
    hide Agree, Safe, Read, InventoryOf, CollisionFree, ReadFrom;
    AgreeFacts(e0, m0, None);
    AgreeFacts(e1, m1, None);
    assert forall c | c in m0 :: ReadCandidate(e1, c, None) == ReadCandidate(e0, c, None);
    assert m1[0] in m1 && m1[0] in m0;
    CandidateMain(e0, m0[0]);
    CandidateMain(e0, m1[0]);
    SameContentSameHistory(e0, ReadCandidate(e0, m0[0], None).value, ReadCandidate(e0, m1[0], None).value);
  }

  /** The two walks make the same turn. */
  lemma TurnKept(
    w: World, rows: Rows, s: Option<Step>, e0: Env, e1: Env, u0: set<string>, u1: set<string>, sel: Option<Selection>,
    n0: seq<Candidate>, base: HistoryPosition, seen: set<string>, count: nat)
    requires Around(w, rows, s, e0, e1) && n0 == ByRollout(e0.inv, base.rollout)
    requires n0 != [] && Covers(u0, e0.inv) && seen <= u0
    requires Walk(e0, u0, sel, n0, Some(base), seen, count).Ok?
    ensures var n1 := ByRollout(e1.inv, base.rollout);
            n1 != [] && n1[0].rollout == n0[0].rollout && Agree(e0, n0, Some(base)).Ok? &&
              Agree(e1, n1, Some(base)).Ok? &&
            SameHistory(Agree(e0, n0, Some(base)).value, Agree(e1, n1, Some(base)).value)
  {
    hide Walk, Agree, Around, SameHistory;
    WalkReads(e0, u0, sel, n0, Some(base), seen, count);
    AgreeKept(w, rows, s, e0, e1, base.rollout, base);
    var n1 := ByRollout(e1.inv, base.rollout);
    assert n0[0] in n0 && n1[0] in n1;
  }

  /** The rest of the lineage is found again, whichever representations are read first. */
  lemma {:induction false} WalkKept(
    w: World, rows: Rows, s: Option<Step>, e0: Env, e1: Env, u0: set<string>, u1: set<string>, sel: Option<Selection>,
    n0: seq<Candidate>, n1: seq<Candidate>, end: Option<HistoryPosition>, seen: set<string>, count: nat)
    requires Around(w, rows, s, e0, e1)
    requires n0 != [] && Covers(u0, e0.inv) && Covers(u0, n0) && seen <= u0
    requires n1 != [] && Covers(u1, e1.inv) && Covers(u1, n1) && seen <= u1
    requires n0[0].rollout == n1[0].rollout
    requires Walk(e0, u0, sel, n0, end, seen, count).Ok?
    requires Agree(e0, n0, end).Ok? && Agree(e1, n1, end).Ok?
    requires SameHistory(Agree(e0, n0, end).value, Agree(e1, n1, end).value)
    requires count == 0 ==> MatchesSelection(sel, Agree(e1, n1, end).value)
    ensures Walk(e1, u1, sel, n1, end, seen, count).Ok?
    ensures SameLineage(Walk(e0, u0, sel, n0, end, seen, count).value, Walk(e1, u1, sel, n1, end, seen, count).value)
    decreases |u0 - seen|
  {
    hide Agree, Around, MatchesSelection, ByRollout, Walk, SameLineage, Append, SameContent, RowOf, InventoryOf,
         Resolved, Filter, Safe;
    AroundFacts(w, rows, s, e0, e1);
    WalkStops(e0, u0, sel, n0, end, seen, count);
    WalkStops(e1, u1, sel, n1, end, seen, count);
    var f0, f1 := Agree(e0, n0, end).value, Agree(e1, n1, end).value;
    if f0.meta.base.Some? {
      var base := f0.meta.base.value;
      var seen1 := seen + {n0[0].rollout};
      WalkGoes(e0, u0, sel, n0, end, seen, count, f0);
      AppendOk(Walk(e0, u0, sel, ByRollout(e0.inv, base.rollout), Some(base), seen1, count + 1), [f0]);
      TurnKept(w, rows, s, e0, e1, u0, u1, sel, ByRollout(e0.inv, base.rollout), base, seen1, count + 1);
      WalkGoes(e1, u1, sel, n1, end, seen, count, f1);
      WalkKept(w, rows, s, e0, e1, u0, u1, sel, ByRollout(e0.inv, base.rollout), ByRollout(e1.inv, base.rollout),
               Some(base), seen1, count + 1);
      SameLineageAppend(Walk(e0, u0, sel, ByRollout(e0.inv, base.rollout), Some(base), seen1, count + 1),
                        Walk(e1, u1, sel, ByRollout(e1.inv, base.rollout), Some(base), seen1, count + 1), f0, f1);
    } else {
      SameLineageOne(f0, f1);
    }
  }

  lemma AppendOk(r: Result<seq<File>>, tail: seq<File>)
    ensures Append(r, tail).Ok? <==> r.Ok?
  {
  }

  lemma SameLineageAppend(a: Result<seq<File>>, b: Result<seq<File>>, f: File, g: File)
    requires SameHistory(f, g)
    requires Append(a, [f]).Ok?
    requires a.Ok? ==> b.Ok? && SameLineage(a.value, b.value)
    ensures Append(b, [g]).Ok? && SameLineage(Append(a, [f]).value, Append(b, [g]).value)
  {
    hide SameHistory;
  }

  lemma SameLineageOne(f: File, g: File)
    requires SameHistory(f, g)
    ensures SameLineage([f], [g])
  {
  }

  lemma WalkReads(env: Env, u: set<string>, sel: Option<Selection>, next: seq<Candidate>, end: Option<HistoryPosition>,
                  seen: set<string>, count: nat)
    requires next != [] && Covers(u, env.inv) && Covers(u, next) && seen <= u
    requires Walk(env, u, sel, next, end, seen, count).Ok?
    ensures Agree(env, next, end).Ok?
  {
    hide Agree;
  }

  lemma SelectionStillMatches(e0: Env, e1: Env, sel: Option<Selection>, m0: seq<Candidate>, m1: seq<Candidate>,
                              id: string)
    requires InventoryOf(e0.tree, e0.inv) && InventoryOf(e1.tree, e1.inv)
    requires MainForms(e0, sel, id) == Ok(m0) && MainForms(e1, sel, id) == Ok(m1)
    requires Agree(e0, m0, None).Ok? && Agree(e1, m1, None).Ok?
    requires Agree(e0, m0, None).value.meta == Agree(e1, m1, None).value.meta
    requires Agree(e0, m0, None).value.source == m0[0].path && Agree(e1, m1, None).value.source == m1[0].path
    requires MatchesSelection(sel, Agree(e0, m0, None).value)
    ensures MatchesSelection(sel, Agree(e1, m1, None).value)
  {
    hide Agree, ParseName, InventoryOf, TrimSuffix, SelectedForms;
    if sel.Some? {
      MainFormPath(e0, sel.value, id, m0, m0[0]);
      MainFormPath(e1, sel.value, id, m1, m1[0]);
      FormsAlike(m0[0].path, m1[0].path);
    }
  }

  /** Non-interference of one step (and of another inventory order): a thread that could be resolved resolves to the
      same rollouts, sizes and digests. */
  lemma StepNonInterference(w: World, rows: Rows, s: Option<Step>, e0: Env, e1: Env, thread: string)
    requires Around(w, rows, s, e0, e1) && ParseID(thread).Some?
    requires var sel := RowOf(rows, ParseID(thread).value); Resolve(e0, thread, sel, sel).Ok?
    ensures var sel := RowOf(rows, ParseID(thread).value);
            Resolve(e1, thread, sel, sel).Ok? &&
            SameLineage(Resolve(e0, thread, sel, sel).value.files, Resolve(e1, thread, sel, sel).value.files)
  {
    hide MainForms, Walk, Around, Agree, MatchesSelection, SameMembers;
    var id := ParseID(thread).value;
    var sel := RowOf(rows, id);
    MainKept(w, rows, s, e0, e1, id);
    var m0, m1 := MainForms(e0, sel, id).value, MainForms(e1, sel, id).value;
    var u0, u1 := Universe(e0, m0), Universe(e1, m1);
    WalkStops(e0, u0, sel, m0, None, {}, 0);
    AroundFacts(w, rows, s, e0, e1);
    MainAgreeKept(w, rows, s, e0, e1, m0, m1);
    AgreeSource(e0, m0);
    SelectionStillMatches(e0, e1, sel, m0, m1, id);
    WalkKept(w, rows, s, e0, e1, u0, u1, sel, m0, m1, None, {}, 0);
  }

  lemma AroundFacts(w: World, rows: Rows, s: Option<Step>, e0: Env, e1: Env)
    requires Around(w, rows, s, e0, e1)
    ensures InventoryOf(e0.tree, e0.inv) && InventoryOf(e1.tree, e1.inv) && e0.limits == e1.limits && e0.limits.Valid()
    ensures e0.snapshot == e1.snapshot
  {
  }

  lemma AgreeSource(env: Env, cs: seq<Candidate>)
    requires cs != [] && Agree(env, cs, None).Ok?
    ensures Agree(env, cs, None).value.source == cs[0].path
  {
    hide Summarize, Captured, Decoded;
    AgreeFacts(env, cs, None);
  }
}
