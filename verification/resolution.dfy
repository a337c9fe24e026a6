// Which plans inspection returns, and when it returns none: internal/session/inspect.go.

module Resolution {
  import opened Model
  import opened Format
  import opened Rollout
  import opened Inspect
  import opened Lineage

  /** Every representation can be read and has the same bytes, digest and thread; the first one is taken. */
  ghost predicate AgreedOn(env: Env, cs: seq<Candidate>, end: Option<HistoryPosition>, f: File) {
    cs != [] && ReadCandidate(env, cs[0], end) == Ok(f) &&
    forall c | c in cs ::
      var g := ReadCandidate(env, c, end);
      g.Ok? && g.value.bytes == f.bytes && g.value.sha == f.sha && g.value.thread == f.thread
  }

  /** The representations of the i-th file: those the walk starts from, or all of the rollout its successor inherits. */
  function Reps(env: Env, next: seq<Candidate>, files: seq<File>, i: nat): seq<Candidate>
    requires i < |files|
  {
    if i == |files| - 1 then next
    else if files[i + 1].meta.base.None? then []
    else ByRollout(env.inv, files[i + 1].meta.base.value.rollout)
  }

  /** Where the i-th file is cut: where its successor's own history begins. */
  function CutAt(end: Option<HistoryPosition>, files: seq<File>, i: nat): Option<HistoryPosition>
    requires i < |files|
  {
    if i == |files| - 1 then end else files[i + 1].meta.base
  }

  /** A whole chain of inherited history, its oldest file inheriting nothing. */
  ghost predicate Chain(env: Env, next: seq<Candidate>, end: Option<HistoryPosition>, files: seq<File>) {
    files != [] && files[0].meta.base.None? && (forall k | 0 < k < |files| :: files[k].meta.base.Some?) &&
    forall i | 0 <= i < |files| :: AgreedOn(env, Reps(env, next, files, i), CutAt(end, files, i), files[i])
  }

  /** The row's mode and place are those of the conversation. */
  predicate RowAgrees(sel: Option<Selection>, f: File) {
    sel.Some? ==> sel.value.mode == f.meta.mode && (sel.value.archived <==> HasPrefix(f.source, "archived_sessions/"))
  }

  lemma AgreedExactly(env: Env, cs: seq<Candidate>, end: Option<HistoryPosition>, f: File)
    requires cs != []
    ensures Agree(env, cs, end) == Ok(f) <==> AgreedOn(env, cs, end, f)
  {
    hide ReadCandidate;
    AgreeFacts(env, cs, end);
  }

  lemma ReadRollout(env: Env, cs: seq<Candidate>, end: Option<HistoryPosition>, f: File)
    requires AgreedOn(env, cs, end, f)
    ensures f.rollout == cs[0].rollout && f.thread == cs[0].thread
  {
    hide Summarize, Captured;
  }

  /** The links of a chain but the last are those of the chain of what the last file inherits. */
  lemma SameLinks(env: Env, next: seq<Candidate>, end: Option<HistoryPosition>, init: seq<File>, last: File, i: nat)
    requires i < |init| && last.meta.base.Some?
    ensures var parents, files := ByRollout(env.inv, last.meta.base.value.rollout), init + [last];
            Reps(env, next, files, i) == Reps(env, parents, init, i) &&
            CutAt(end, files, i) == CutAt(last.meta.base, init, i) && files[i] == init[i]
  {
    hide ByRollout;
  }

  lemma ChainShorter(env: Env, next: seq<Candidate>, end: Option<HistoryPosition>, init: seq<File>, last: File)
    requires init != [] && Chain(env, next, end, init + [last])
    ensures AgreedOn(env, next, end, last) && last.meta.base.Some?
    ensures Chain(env, ByRollout(env.inv, last.meta.base.value.rollout), last.meta.base, init)
  {
    hide AgreedOn, ByRollout, Reps, CutAt;
    var files, n := init + [last], |init|;
    assert files[n] == last && files[n].meta.base.Some?;
    var parents := ByRollout(env.inv, last.meta.base.value.rollout);
    LastLink(env, next, end, init, last);
    assert AgreedOn(env, Reps(env, next, files, n), CutAt(end, files, n), files[n]);
    assert forall i | 0 <= i < n :: files[i] == init[i];
    forall i | 0 <= i < n
      ensures AgreedOn(env, Reps(env, parents, init, i), CutAt(last.meta.base, init, i), init[i])
    {
      SameLinks(env, next, end, init, last, i);
      assert AgreedOn(env, Reps(env, next, files, i), CutAt(end, files, i), files[i]);
    }
  }

  lemma LastLink(env: Env, next: seq<Candidate>, end: Option<HistoryPosition>, init: seq<File>, last: File)
    ensures Reps(env, next, init + [last], |init|) == next && CutAt(end, init + [last], |init|) == end
  {
  }

  lemma ChainLonger(env: Env, next: seq<Candidate>, end: Option<HistoryPosition>, init: seq<File>, last: File)
    requires AgreedOn(env, next, end, last)
    requires if last.meta.base.None? then init == []
             else Chain(env, ByRollout(env.inv, last.meta.base.value.rollout), last.meta.base, init)
    ensures Chain(env, next, end, init + [last])
  {
    hide AgreedOn, ByRollout, Reps, CutAt;
    var files, n := init + [last], |init|;
    assert files[n] == last && forall i | 0 <= i < n :: files[i] == init[i];
    LastLink(env, next, end, init, last);
    forall i | 0 <= i <= n
      ensures AgreedOn(env, Reps(env, next, files, i), CutAt(end, files, i), files[i])
    {
      if i < n {
        var parents := ByRollout(env.inv, last.meta.base.value.rollout);
        SameLinks(env, next, end, init, last, i);
        assert AgreedOn(env, Reps(env, parents, init, i), CutAt(last.meta.base, init, i), init[i]);
      }
    }
  }

  lemma ChainOne(env: Env, next: seq<Candidate>, end: Option<HistoryPosition>, last: File)
    requires Chain(env, next, end, [last])
    ensures AgreedOn(env, next, end, last) && last.meta.base.None?
  {
    hide AgreedOn;
    assert AgreedOn(env, Reps(env, next, [last], 0), CutAt(end, [last], 0), [last][0]);
  }

  /** A chain is its last file behind a chain of what that file inherits. */
  lemma ChainStep(env: Env, next: seq<Candidate>, end: Option<HistoryPosition>, files: seq<File>)
    requires files != []
    ensures var init, last := files[..|files| - 1], files[|files| - 1];
            Chain(env, next, end, files) <==>
              AgreedOn(env, next, end, last) &&
              if last.meta.base.None? then init == []
              else Chain(env, ByRollout(env.inv, last.meta.base.value.rollout), last.meta.base, init)
  {
    hide AgreedOn, ByRollout, Reps, CutAt;
    var init, last := files[..|files| - 1], files[|files| - 1];
    assert files == init + [last];
    if Chain(env, next, end, files) {
      if init == [] {
        assert files == [last];
        ChainOne(env, next, end, last);
      } else {
        ChainShorter(env, next, end, init, last);
      }
    } else if AgreedOn(env, next, end, last) &&
              (if last.meta.base.None? then init == []
               else Chain(env, ByRollout(env.inv, last.meta.base.value.rollout), last.meta.base, init)) {
      ChainLonger(env, next, end, init, last);
    }
  }

  predicate Outside(files: seq<File>, seen: set<string>) {
    forall f | f in files :: f.rollout !in seen
  }

  lemma OutsideStep(init: seq<File>, last: File, seen: set<string>)
    ensures Outside(init + [last], seen) && Distinct(init + [last]) <==>
            last.rollout !in seen && Outside(init, seen + {last.rollout}) && Distinct(init)
  {
    var all := init + [last];
    if last.rollout !in seen && Outside(init, seen + {last.rollout}) && Distinct(init) {
      forall i, j | 0 <= i < j < |all|
        ensures all[i].rollout != all[j].rollout
      {
        if j == |init| {
          assert init[i] in init;
        }
      }
    }
    if Outside(all, seen) && Distinct(all) {
      assert all[|init|] == last;
      forall f | f in init
        ensures f.rollout !in seen + {last.rollout}
      {
        var i :| 0 <= i < |init| && init[i] == f;
        assert all[i] == f && f in all;
      }
      assert forall i | 0 <= i < |init| :: all[i] == init[i];
    }
  }

  /** The walk, exactly. */
  lemma {:induction false} WalkExactly(env: Env, universe: set<string>, sel: Option<Selection>, next: seq<Candidate>,
                                       end: Option<HistoryPosition>, seen: set<string>, count: nat, files: seq<File>)
    requires next != [] && Covers(universe, env.inv) && Covers(universe, next) && seen <= universe
    ensures Walk(env, universe, sel, next, end, seen, count) == Ok(files) <==>
            Chain(env, next, end, files) && count + |files| <= env.limits.files && Distinct(files) &&
            Outside(files, seen) && (count == 0 ==> RowAgrees(sel, files[|files| - 1]))
    decreases |universe - seen|
  {
    hide Agree, AgreedOn, ByRollout, Walk, Chain, Outside, Distinct, Covers;
    WalkStops(env, universe, sel, next, end, seen, count);
    if Walk(env, universe, sel, next, end, seen, count).Ok? {
      WalkNotEmpty(env, universe, sel, next, end, seen, count);
    }
    if files == [] {
      NoChain(env, next, end);
    } else {
      var init, last := files[..|files| - 1], files[|files| - 1];
      assert files == init + [last];
      ChainStep(env, next, end, files);
      OutsideStep(init, last, seen);
      AgreedExactly(env, next, end, last);
      if AgreedOn(env, next, end, last) {
        ReadRollout(env, next, end, last);
      }
      if count < env.limits.files && next[0].rollout !in seen && Agree(env, next, end).Ok? {
        var chosen := Agree(env, next, end).value;
        if (count == 0 ==> MatchesSelection(sel, chosen)) && chosen.meta.base.Some? {
          WalkOn(env, universe, sel, next, end, seen, count, chosen, files);
        } else {
          LoneChain(init, seen, last);
        }
      }
    }
  }

  lemma WalkNotEmpty(env: Env, universe: set<string>, sel: Option<Selection>, next: seq<Candidate>,
                     end: Option<HistoryPosition>, seen: set<string>, count: nat)
    requires next != [] && Covers(universe, env.inv) && Covers(universe, next) && seen <= universe
    ensures Walk(env, universe, sel, next, end, seen, count).Ok? ==>
              Walk(env, universe, sel, next, end, seen, count).value != []
  {
    hide Agree, MatchesSelection, ByRollout;
  }

  lemma NoChain(env: Env, next: seq<Candidate>, end: Option<HistoryPosition>)
    ensures !Chain(env, next, end, [])
  {
  }

  lemma LoneChain(init: seq<File>, seen: set<string>, last: File)
    ensures init == [] ==> Outside(init, seen + {last.rollout}) && Distinct(init)
  {
  }

  /** Where the chosen file inherits history. */
  lemma {:induction false} WalkOn(env: Env, universe: set<string>, sel: Option<Selection>, next: seq<Candidate>,
                                  end: Option<HistoryPosition>, seen: set<string>, count: nat, chosen: File,
                                  files: seq<File>)
    requires next != [] && Covers(universe, env.inv) && Covers(universe, next) && seen <= universe
    requires count < env.limits.files && next[0].rollout !in seen && Agree(env, next, end) == Ok(chosen)
    requires (count == 0 ==> MatchesSelection(sel, chosen)) && chosen.meta.base.Some? && files != []
    ensures var init, last := files[..|files| - 1], files[|files| - 1];
            Walk(env, universe, sel, next, end, seen, count) == Ok(files) <==>
              last == chosen &&
              Chain(env, ByRollout(env.inv, chosen.meta.base.value.rollout), chosen.meta.base, init) &&
              count + |files| <= env.limits.files && Distinct(init) && Outside(init, seen + {next[0].rollout})
    decreases |universe - seen|, 0
  {
    hide Agree, AgreedOn, Walk, Chain, Outside, Distinct, ByRollout;
    var base := chosen.meta.base.value;
    var parents := ByRollout(env.inv, base.rollout);
    var init, last := files[..|files| - 1], files[|files| - 1];
    assert files == init + [last];
    WalkStops(env, universe, sel, next, end, seen, count);
    if parents == [] {
      EmptyChain(env, Some(base), init);
    } else {
      WalkGoes(env, universe, sel, next, end, seen, count, chosen);
      WalkExactly(env, universe, sel, parents, Some(base), seen + {next[0].rollout}, count + 1, init);
      var rest := Walk(env, universe, sel, parents, Some(base), seen + {next[0].rollout}, count + 1);
      if rest.Ok? {
        SplitLast(rest.value, chosen, files);
      }
    }
  }

  lemma EmptyChain(env: Env, end: Option<HistoryPosition>, files: seq<File>)
    ensures !Chain(env, [], end, files)
  {
    if files != [] {
      ChainStep(env, [], end, files);
    }
  }

  lemma SplitLast(rest: seq<File>, chosen: File, files: seq<File>)
    requires files != []
    ensures rest + [chosen] == files <==> rest == files[..|files| - 1] && chosen == files[|files| - 1]
  {
    if rest + [chosen] == files {
      assert files[..|rest|] == rest && files[|rest|] == chosen;
    }
  }

  // ---- where it starts ----

  /** The representations a thread starts from: without a row every complete conversation of the thread; with one, the
      files of its path, and for a legacy row also a file the inventory cannot name. */
  function MainList(env: Env, sel: Option<Selection>, id: string): seq<Candidate> {
    if sel.None? then Conversations(env.inv, id)
    else if Forms(env.inv, sel.value.path) != [] then Forms(env.inv, sel.value.path)
    else if sel.value.mode == "legacy" then LegacyForms(env.tree, sel.value.path, id)
    else []
  }

  /** Of such a legacy row both forms of its file are taken, as the thread's only rollout. */
  lemma LegacyExactly(tree: Tree, path: string, id: string, c: Candidate)
    requires SelectablePath(path)
    ensures c in LegacyForms(tree, path, id) <==>
            c.path in tree && TrimSuffix(c.path, ".zst") == TrimSuffix(path, ".zst") && c.thread == c.rollout == id
  {
    hide HasSuffix, ValidRelative;
    var plain := TrimSuffix(path, ".zst");
    PlainForm(path);
    JoinTrimmed(c.path, ".zst");
    FormTrimmed(plain);
    if c.path in tree && TrimSuffix(c.path, ".zst") == plain && c.thread == c.rollout == id {
      assert c == Candidate(c.path, id, id);
    }
  }

  lemma PlainForm(path: string)
    requires SelectablePath(path)
    ensures TrimSuffix(TrimSuffix(path, ".zst"), ".zst") == TrimSuffix(path, ".zst")
  {
    hide ValidRelative, ManagedPath;
    var plain := TrimSuffix(path, ".zst");
    if HasSuffix(path, ".jsonl") {
      assert path[|path| - 6..][5] == 'l' && plain == path;
    } else {
      assert path == path[..|path| - 10] + ".jsonl" + ".zst";
      assert plain == path[..|path| - 10] + ".jsonl";
    }
    assert plain[|plain| - 1] == 'l';
  }

  lemma FormTrimmed(plain: string)
    ensures TrimSuffix(plain + ".zst", ".zst") == plain
  {
  }

  /** The row names a rollout in managed storage that is not a prerequisite. */
  predicate Nameable(path: string) {
    ValidRelative(path) && (HasPrefix(path, "sessions/") || HasPrefix(path, "archived_sessions/")) &&
    (HasSuffix(path, ".jsonl") || HasSuffix(path, ".jsonl.zst")) &&
    !HasPrefix(path, "archived_sessions/.hcorral-history/")
  }

  /** There are such representations, all of this thread and of one rollout. */
  predicate Starts(env: Env, sel: Option<Selection>, id: string) {
    (sel.Some? ==> Nameable(sel.value.path)) && MainList(env, sel, id) != [] &&
    forall c | c in MainList(env, sel, id) :: c.thread == id && c.rollout == MainList(env, sel, id)[0].rollout
  }

  lemma {:induction false} CheckMainExactly(main: seq<Candidate>, id: string, rollout: string)
    ensures CheckMain(main, id, rollout).Ok? <==> forall c | c in main :: c.thread == id && c.rollout == rollout
  {
    if main != [] {
      CheckMainExactly(main[1..], id, rollout);
      assert forall c :: c in main <==> c == main[0] || c in main[1..];
    }
  }

  lemma StartsExactly(env: Env, sel: Option<Selection>, id: string)
    ensures MainForms(env, sel, id).Ok? <==> Starts(env, sel, id)
    ensures Starts(env, sel, id) ==> MainForms(env, sel, id) == Ok(MainList(env, sel, id))
  {
    hide ValidRelative, Conversations, Forms, LegacyForms, CheckMain;
    var main := MainList(env, sel, id);
    if main != [] {
      CheckMainExactly(main, id, main[0].rollout);
    }
  }

  /** Inspection, exactly. It returns a plan if and only if the thread is a UUID, the limits are sound, the selection
      has not changed while a snapshot was taken, the thread starts from representations of one rollout of its own, and
      the plan's files are the whole chain from there, within the file limit, without a rollout twice, and as the row
      says. */
  lemma ResolveExactly(env: Env, thread: string, sel: Option<Selection>, after: Option<Selection>, id: string,
                       files: seq<File>)
    ensures Resolve(env, thread, sel, after) == Ok(Plan(id, files)) <==>
            ParseID(thread) == Some(id) && env.limits.Valid() && (env.snapshot ==> sel == after) &&
            Starts(env, sel, id) && Chain(env, MainList(env, sel, id), None, files) &&
            |files| <= env.limits.files && Distinct(files) && RowAgrees(sel, files[|files| - 1])
  {
    hide MainForms, Walk, Starts, MainList, Chain, Distinct, RowAgrees;
    StartsExactly(env, sel, id);
    if ParseID(thread) == Some(id) && Starts(env, sel, id) {
      var main := MainForms(env, sel, id).value;
      WalkExactly(env, Universe(env, main), sel, main, None, {}, 0, files);
      NothingSeen(files);
    }
  }

  lemma NothingSeen(files: seq<File>)
    ensures Outside(files, {})
  {
  }
}
