// Resolving the saved history of a thread: internal/session/inspect.go.

module Inspect {
  import opened Model
  import opened Format
  import opened Rollout
  import opened Cutoff

  // ---- the inventory of a home ----

  /** A path the inventory lists: managed storage with a parseable name. */
  predicate Listed(p: string) {
    ManagedPath(p) && ParseName(p).Some?
  }

  /** The inventory holds exactly one candidate for each listed path of the tree, in some order. */
  ghost predicate InventoryOf(tree: Tree, inv: seq<Candidate>) {
    (forall c | c in inv :: c.path in tree && Listed(c.path) && ParseName(c.path) == Some(c)) &&
    (forall p | p in tree && Listed(p) :: ParseName(p).value in inv) &&
    (forall i, j | 0 <= i < j < |inv| :: inv[i] != inv[j])
  }

  function Filter(s: seq<Candidate>, p: Candidate -> bool): (r: seq<Candidate>)
    ensures forall c :: c in r <==> c in s && p(c)
    ensures |r| <= |s|
  {
    if s == [] then []
    else if p(s[0]) then [s[0]] + Filter(s[1..], p)
    else Filter(s[1..], p)
  }

  function ByRollout(inv: seq<Candidate>, rollout: string): (r: seq<Candidate>)
    ensures forall c :: c in r <==> c in inv && c.rollout == rollout
  {
    Filter(inv, (c: Candidate) => c.rollout == rollout)
  }

  /** The complete conversations of a thread. */
  function Conversations(inv: seq<Candidate>, thread: string): (r: seq<Candidate>)
    ensures forall c :: c in r <==> c in inv && c.thread == thread && !PrerequisitePath(c.path)
  {
    Filter(inv, (c: Candidate) => c.thread == thread && !PrerequisitePath(c.path))
  }

  /** The plain and compressed forms of one path. */
  function Forms(inv: seq<Candidate>, path: string): (r: seq<Candidate>)
    ensures forall c :: c in r <==> c in inv && TrimSuffix(c.path, ".zst") == TrimSuffix(path, ".zst")
  {
    Filter(inv, (c: Candidate) => TrimSuffix(c.path, ".zst") == TrimSuffix(path, ".zst"))
  }

  // ---- the walk ----

  /** A home as one inspection sees it. */
  datatype Env = Env(w: World, tree: Tree, inv: seq<Candidate>, limits: Limits, snapshot: bool)

  function ReadCandidate(env: Env, c: Candidate, end: Option<HistoryPosition>): Result<File> {
    if c.path in env.tree then Read(env.w, env.tree[c.path], c, end, env.limits, env.snapshot) else Err(NotFound)
  }

  predicate SameContent(f: File, g: File) {
    f.bytes == g.bytes && f.sha == g.sha && f.thread == g.thread
  }

  function AgreeRest(env: Env, cs: seq<Candidate>, end: Option<HistoryPosition>, chosen: File): Result<File> {
    if cs == [] then Ok(chosen)
    else
      var f :- ReadCandidate(env, cs[0], end);
      if !SameContent(f, chosen) then Err(Disagreement) else AgreeRest(env, cs[1..], end, chosen)
  }

  /** Every representation must be readable and agree with the first. */
  function Agree(env: Env, cs: seq<Candidate>, end: Option<HistoryPosition>): Result<File>
    requires cs != []
  {
    var chosen :- ReadCandidate(env, cs[0], end);
    AgreeRest(env, cs[1..], end, chosen)
  }

  ghost predicate Covers(universe: set<string>, inv: seq<Candidate>) {
    forall c | c in inv :: c.rollout in universe
  }

  predicate MatchesSelection(sel: Option<Selection>, f: File) {
    sel.None? || (sel.value.mode == f.meta.mode && sel.value.archived == HasPrefix(f.source, "archived_sessions/"))
  }

  /** From one rollout backwards to the one that inherits nothing; prerequisites first. */
  function Walk(env: Env, ghost universe: set<string>, sel: Option<Selection>, next: seq<Candidate>,
                end: Option<HistoryPosition>, seen: set<string>, count: nat): Result<seq<File>>
    requires next != [] && Covers(universe, env.inv) && Covers(universe, next) && seen <= universe
    decreases |universe - seen|
  {
    var rollout := next[0].rollout;
    if count >= env.limits.files then Err(TooManyFiles)
    else if rollout in seen then Err(Cycle)
    else
      var chosen :- Agree(env, next, end);
      if count == 0 && !MatchesSelection(sel, chosen) then Err(SelectionMismatch)
      else if chosen.meta.base.None? then Ok([chosen])
      else
        var base := chosen.meta.base.value;
        var parents := ByRollout(env.inv, base.rollout);
        if parents == [] then Err(MissingRollout)
        else
          assert universe - (seen + {rollout}) < universe - seen by {
            assert rollout in universe - seen;
          }
          SubsetSize(universe - (seen + {rollout}), universe - seen);
          var rest :- Walk(env, universe, sel, parents, Some(base), seen + {rollout}, count + 1);
          Ok(rest + [chosen])
  }

  lemma {:induction false} SubsetSize(a: set<string>, b: set<string>)
    requires a < b
    ensures |a| < |b|
  {
    var x :| x in b && x !in a;
    SubsetSizeLeq(a, b - {x});
  }

  lemma {:induction false} SubsetSizeLeq(a: set<string>, b: set<string>)
    requires a <= b
    ensures |a| <= |b|
  {
    if a != {} {
      var x :| x in a;
      SubsetSizeLeq(a - {x}, b - {x});
    }
  }

  // ---- inspection ----

  /** A row's path must name a rollout in managed storage. */
  predicate SelectablePath(path: string) {
    ValidRelative(path) && ManagedPath(path) && (HasSuffix(path, ".jsonl") || HasSuffix(path, ".jsonl.zst"))
  }

  /** A legacy row may name a file the inventory cannot parse. */
  function LegacyForms(tree: Tree, path: string, id: string): (r: seq<Candidate>)
    ensures forall c | c in r :: c.thread == id && c.rollout == id && c.path in tree
  {
    var plain := TrimSuffix(path, ".zst");
    (if plain in tree then [Candidate(plain, id, id)] else []) +
    (if plain + ".zst" in tree then [Candidate(plain + ".zst", id, id)] else [])
  }

  function SelectedForms(env: Env, sel: Selection, id: string): Result<seq<Candidate>> {
    if !SelectablePath(sel.path) then Err(UnmanagedSelection)
    else if PrerequisitePath(sel.path) then Err(PrerequisiteSelected)
    else
      var listed := Forms(env.inv, sel.path);
      var main := if listed == [] && sel.mode == "legacy" then LegacyForms(env.tree, sel.path, id) else listed;
      if main == [] then Err(MissingRollout) else Ok(main)
  }

  function CheckMain(main: seq<Candidate>, id: string, rollout: string): Result<()> {
    if main == [] then Ok(())
    else if main[0].thread != id then Err(WrongThread)
    else if main[0].rollout != rollout then Err(Ambiguous)
    else CheckMain(main[1..], id, rollout)
  }

  /** The representations of the conversation a thread resolves to. */
  function MainForms(env: Env, sel: Option<Selection>, id: string): (r: Result<seq<Candidate>>)
    ensures r.Ok? ==> r.value != []
  {
    var main :- if sel.Some? then SelectedForms(env, sel.value, id) else Ok(Conversations(env.inv, id));
    if main == [] then Err(NotFound)
    else
      var _ :- CheckMain(main, id, main[0].rollout);
      Ok(main)
  }

  ghost function Universe(env: Env, main: seq<Candidate>): (u: set<string>)
    ensures Covers(u, env.inv) && Covers(u, main)
  {
    (set c | c in env.inv :: c.rollout) + (set c | c in main :: c.rollout)
  }

  /** inspect; `after` is the selection as read again at the end of a snapshot. */
  function Resolve(env: Env, thread: string, sel: Option<Selection>, after: Option<Selection>): Result<Plan> {
    if ParseID(thread).None? then Err(InvalidId)
    else if !env.limits.Valid() then Err(InvalidLimits)
    else
      var id := ParseID(thread).value;
      var main :- MainForms(env, sel, id);
      var files :- Walk(env, Universe(env, main), sel, main, None, {}, 0);
      if env.snapshot && sel != after then Err(SelectionChanged) else Ok(Plan(id, files))
  }

  // ---- the loops of the source ----

  function Reverse<T>(s: seq<T>): (r: seq<T>)
    ensures |r| == |s|
    ensures forall i | 0 <= i < |s| :: r[i] == s[|s| - 1 - i]
  {
    if s == [] then [] else Reverse(s[1..]) + [s[0]]
  }

  /** The in-place reversal at the end of inspect. */
  method ReverseFiles(files: seq<File>) returns (r: seq<File>)
    ensures r == Reverse(files)
  {
    r := files;
    var i, j := 0, |files| - 1;
    while i < j
      invariant |r| == |files| && 0 <= i && j == |files| - 1 - i
      invariant i <= j + 1
      invariant forall k | 0 <= k < i :: r[k] == files[|files| - 1 - k] && r[|files| - 1 - k] == files[k]
      invariant forall k | i <= k <= j :: r[k] == files[k]
    {
      ghost var before := r;
      r := r[i := r[j]][j := r[i]];
      assert forall k | 0 <= k < |r| && k != i && k != j :: r[k] == before[k];
      i, j := i + 1, j - 1;
    }
  }

  method ReadAgreeing(env: Env, cs: seq<Candidate>, end: Option<HistoryPosition>) returns (r: Result<File>)
    requires cs != [] && env.limits.Valid()
    ensures r == Agree(env, cs, end)
  {
    hide Read;
    var chosen: Option<File> := None;
    for i := 0 to |cs|
      invariant i > 0 ==> chosen.Some? && Agree(env, cs, end) == AgreeRest(env, cs[i..], end, chosen.value)
      invariant i > 0 <==> chosen.Some?
    {
      assert cs[i..][1..] == cs[i + 1..];
      var file;
      if cs[i].path in env.tree {
        file := ReadRolloutFile(env.w, env.tree[cs[i].path], cs[i], end, env.limits, env.snapshot);
      } else {
        file := Err(NotFound);
      }
      if file.Err? {
        return Err(file.error);
      }
      if chosen.None? {
        chosen := Some(file.value);
      } else if !SameContent(file.value, chosen.value) {
        return Err(Disagreement);
      }
    }
    return Ok(chosen.value);
  }

  function Append(r: Result<seq<File>>, tail: seq<File>): Result<seq<File>> {
    if r.Ok? then Ok(r.value + tail) else r
  }

  lemma AppendNothing(r: Result<seq<File>>)
    ensures Append(r, []) == r
  {
    if r.Ok? {
      assert r.value + [] == r.value;
    }
  }

  lemma ReverseAppend(s: seq<File>, x: File)
    ensures Reverse(s + [x]) == [x] + Reverse(s)
  {
  }

  /** One step of the walk moves the newest file from the part to come to the part already read. */
  lemma WalkStep(env: Env, universe: set<string>, sel: Option<Selection>, next: seq<Candidate>,
                 end: Option<HistoryPosition>, seen: set<string>, files: seq<File>, chosen: File)
    requires next != [] && Covers(universe, env.inv) && Covers(universe, next) && seen <= universe
    requires |files| < env.limits.files && next[0].rollout !in seen && Agree(env, next, end) == Ok(chosen)
    requires |files| == 0 ==> MatchesSelection(sel, chosen)
    requires chosen.meta.base.Some? && ByRollout(env.inv, chosen.meta.base.value.rollout) != []
    ensures |universe - (seen + {next[0].rollout})| < |universe - seen|
    ensures Append(Walk(env, universe, sel, next, end, seen, |files|), Reverse(files)) ==
            Append(Walk(env, universe, sel, ByRollout(env.inv, chosen.meta.base.value.rollout), chosen.meta.base,
                        seen + {next[0].rollout}, |files| + 1),
                   Reverse(files + [chosen]))
  {
    hide Agree, MatchesSelection, ByRollout, Reverse;
    assert next[0].rollout in universe - seen;
    SubsetSize(universe - (seen + {next[0].rollout}), universe - seen);
    ReverseAppend(files, chosen);
    var rest := Walk(env, universe, sel, ByRollout(env.inv, chosen.meta.base.value.rollout), chosen.meta.base,
                     seen + {next[0].rollout}, |files| + 1);
    if rest.Ok? {
      assert rest.value + ([chosen] + Reverse(files)) == (rest.value + [chosen]) + Reverse(files);
    }
  }

  /** Where the walk stops. */
  lemma WalkStops(env: Env, universe: set<string>, sel: Option<Selection>, next: seq<Candidate>,
                  end: Option<HistoryPosition>, seen: set<string>, count: nat)
    requires next != [] && Covers(universe, env.inv) && Covers(universe, next) && seen <= universe
    ensures var r := Walk(env, universe, sel, next, end, seen, count);
            if count >= env.limits.files then r == Err(TooManyFiles)
            else if next[0].rollout in seen then r == Err(Cycle)
            else if Agree(env, next, end).Err? then r == Err(Agree(env, next, end).error)
            else
              var chosen := Agree(env, next, end).value;
              if count == 0 && !MatchesSelection(sel, chosen) then r == Err(SelectionMismatch)
              else if chosen.meta.base.None? then r == Ok([chosen])
              else ByRollout(env.inv, chosen.meta.base.value.rollout) == [] ==> r == Err(MissingRollout)
  {
    hide Agree, MatchesSelection, ByRollout;
  }

  /** Where the walk goes on. */
  lemma WalkGoes(env: Env, universe: set<string>, sel: Option<Selection>, next: seq<Candidate>,
                 end: Option<HistoryPosition>, seen: set<string>, count: nat, chosen: File)
    requires next != [] && Covers(universe, env.inv) && Covers(universe, next) && seen <= universe
    requires count < env.limits.files && next[0].rollout !in seen && Agree(env, next, end) == Ok(chosen)
    requires count == 0 ==> MatchesSelection(sel, chosen)
    requires chosen.meta.base.Some? && ByRollout(env.inv, chosen.meta.base.value.rollout) != []
    ensures |universe - (seen + {next[0].rollout})| < |universe - seen|
    ensures Walk(env, universe, sel, next, end, seen, count) ==
            Append(Walk(env, universe, sel, ByRollout(env.inv, chosen.meta.base.value.rollout), chosen.meta.base,
                        seen + {next[0].rollout}, count + 1), [chosen])
  {
    hide Agree, MatchesSelection, ByRollout;
    assert next[0].rollout in universe - seen;
    SubsetSize(universe - (seen + {next[0].rollout}), universe - seen);
  }

  /** The lineage loop of inspect: appends from the main rollout backwards, then reverses. */
  method WalkLineage(env: Env, sel: Option<Selection>, main: seq<Candidate>) returns (r: Result<seq<File>>)
    requires main != [] && env.limits.Valid()
    ensures r == Walk(env, Universe(env, main), sel, main, None, {}, 0)
  {
    hide Agree, MatchesSelection, Reverse, ByRollout, Walk, SameContent;
    ghost var universe := Universe(env, main);
    var files: seq<File> := [];
    var next, end, seen := main, None, {};
    AppendNothing(Walk(env, universe, sel, main, None, {}, 0));
    while true
      invariant next != [] && Covers(universe, next) && seen <= universe
      invariant Walk(env, universe, sel, main, None, {}, 0) ==
                Append(Walk(env, universe, sel, next, end, seen, |files|), Reverse(files))
      decreases |universe - seen|
    {
      WalkStops(env, universe, sel, next, end, seen, |files|);
      if |files| >= env.limits.files {
        return Err(TooManyFiles);
      }
      var rollout := next[0].rollout;
      if rollout in seen {
        return Err(Cycle);
      }
      var chosen := ReadAgreeing(env, next, end);
      if chosen.Err? {
        return Err(chosen.error);
      }
      if |files| == 0 && !MatchesSelection(sel, chosen.value) {
        return Err(SelectionMismatch);
      }
      if chosen.value.meta.base.None? {
        ReverseAppend(files, chosen.value);
        files := ReverseFiles(files + [chosen.value]);
        return Ok(files);
      }
      var parents := ByRollout(env.inv, chosen.value.meta.base.value.rollout);
      if parents == [] {
        return Err(MissingRollout);
      }
      WalkStep(env, universe, sel, next, end, seen, files, chosen.value);
      seen := seen + {rollout};
      files := files + [chosen.value];
      next, end := parents, chosen.value.meta.base;
    }
  }

  method InspectThread(env: Env, thread: string, sel: Option<Selection>,
                       after: Option<Selection>) returns (r: Result<Plan>)
    ensures r == Resolve(env, thread, sel, after)
    ensures env.snapshot && sel != after ==> r.Err?
  {
    var id := ParseID(thread);
    if id.None? {
      return Err(InvalidId);
    }
    if !env.limits.Valid() {
      return Err(InvalidLimits);
    }
    var main := MainForms(env, sel, id.value);
    if main.Err? {
      return Err(main.error);
    }
    var files := WalkLineage(env, sel, main.value);
    if files.Err? {
      return Err(files.error);
    }
    if env.snapshot && sel != after {
      return Err(SelectionChanged);
    }
    return Ok(Plan(id.value, files.value));
  }
}
