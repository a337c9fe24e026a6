// What a resolved plan guarantees: internal/session/inspect.go.

module Lineage {
  import opened Model
  import opened Format
  import opened Rollout
  import opened Cutoff
  import opened Inspect

  /** The bytes of a planned file. */
  function ContentOf(w: World, f: File): Bytes {
    var d := Decoded(w, f.source, f.stored.raw).data;
    if f.bytes <= |d| then d[..f.bytes] else d
  }

  function SummaryOf(f: File): Summary {
    Summary(f.bytes, f.sha, f.meta, f.lastOrdinal)
  }

  /** The file's size, digest, metadata and last ordinal are those of its bytes, read as a complete rollout. */
  predicate Describes(w: World, limits: Limits, f: File, content: Bytes) {
    Summarize(w, Stream(content, true), f.thread, None, limits) == Ok(SummaryOf(f))
  }

  /** The cutoff after a whole file. */
  predicate EndsAt(end: HistoryPosition, f: File) {
    end.rollout == f.rollout && end.endByte == f.bytes && end.endOrdinal == f.lastOrdinal + 1
  }

  lemma ReadFacts(w: World, node: Node, c: Candidate, end: Option<HistoryPosition>, limits: Limits, snapshot: bool)
    requires Read(w, node, c, end, limits, snapshot).Ok? && limits.Valid()
    ensures var f := Read(w, node, c, end, limits, snapshot).value;
            f.source == c.path && f.path == TrimSuffix(c.path, ".zst") && f.thread == c.thread &&
            f.rollout == c.rollout && f.stored == node && f.prefix == end.Some? &&
            0 < f.bytes <= limits.fileBytes && f.sha == w.hash(ContentOf(w, f)) && |ContentOf(w, f)| == f.bytes &&
            Describes(w, limits, f, ContentOf(w, f)) && AdmittedMetadata(f.meta, c.thread)
    ensures var f := Read(w, node, c, end, limits, snapshot).value;
            end.Some? ==> f.bytes == end.value.endByte && f.meta.mode == "paginated" &&
                          f.lastOrdinal + 1 == end.value.endOrdinal
  {
    hide Summarize;
    var raw := Decoded(w, c.path, node.raw);
    var s := if snapshot then Captured(w, c.path, node.raw, end, limits.recordBytes).value else raw;
    SummaryBounds(w, s, c.thread, end, limits);
    SummaryCovers(w, s, c.thread, end, limits);
    var f := Read(w, node, c, end, limits, snapshot).value;
    assert Content(s, end) == ContentOf(w, f);
    if end.Some? {
      CutoffIsWhole(w, s, c.thread, end.value, limits);
    } else {
      assert Stream(Content(s, end), true) == s;
    }
  }

  // ---- agreement ----

  lemma {:induction false} AgreeRestFacts(env: Env, cs: seq<Candidate>, end: Option<HistoryPosition>, chosen: File)
    ensures AgreeRest(env, cs, end, chosen).Ok? <==>
            forall c | c in cs :: var f := ReadCandidate(env, c, end); f.Ok? && SameContent(f.value, chosen)
    ensures AgreeRest(env, cs, end, chosen).Ok? ==> AgreeRest(env, cs, end, chosen) == Ok(chosen)
  {
    hide ReadCandidate;
    if cs != [] {
      AgreeRestFacts(env, cs[1..], end, chosen);
      assert forall c :: c in cs <==> c == cs[0] || c in cs[1..];
    }
  }

  /** Agreement means: every representation is readable and all have the same bytes. */
  lemma AgreeFacts(env: Env, cs: seq<Candidate>, end: Option<HistoryPosition>)
    requires cs != []
    ensures Agree(env, cs, end).Ok? <==>
            ReadCandidate(env, cs[0], end).Ok? &&
            forall c | c in cs ::
              var f := ReadCandidate(env, c, end);
              f.Ok? && SameContent(f.value, ReadCandidate(env, cs[0], end).value)
    ensures Agree(env, cs, end).Ok? ==> Agree(env, cs, end) == ReadCandidate(env, cs[0], end)
  {
    hide ReadCandidate;
    if ReadCandidate(env, cs[0], end).Ok? {
      AgreeRestFacts(env, cs[1..], end, ReadCandidate(env, cs[0], end).value);
      assert forall c :: c in cs <==> c == cs[0] || c in cs[1..];
    }
  }

  // ---- the walk ----

  /** Neighbours meet exactly: each file but the last is a prefix ending where the next one's history begins. */
  predicate Joined(files: seq<File>) {
    forall i | 0 <= i < |files| - 1 :: Meets(files[i], files[i + 1])
  }

  predicate Meets(parent: File, child: File) {
    parent.prefix && parent.meta.mode == "paginated" && parent.lastOrdinal < MAX_U64 &&
    child.meta.base.Some? && EndsAt(child.meta.base.value, parent)
  }

  predicate Distinct(files: seq<File>) {
    forall i, j | 0 <= i < j < |files| :: files[i].rollout != files[j].rollout
  }

  ghost predicate ReadFrom(env: Env, f: File) {
    f.source in env.tree && f.stored == env.tree[f.source] && Describes(env.w, env.limits, f, ContentOf(env.w, f)) &&
    0 < f.bytes <= env.limits.fileBytes && |ContentOf(env.w, f)| == f.bytes &&
    f.sha == env.w.hash(ContentOf(env.w, f)) && AdmittedMetadata(f.meta, f.thread) &&
    f.path == TrimSuffix(f.source, ".zst")
  }

  /** A complete lineage read from a home. */
  ghost predicate Resolved(env: Env, files: seq<File>) {
    files != [] && files[0].meta.base.None? && Joined(files) && Distinct(files) &&
    (forall f | f in files :: ReadFrom(env, f))
  }

  lemma AppendFile(env: Env, files: seq<File>, last: File)
    requires Resolved(env, files) && ReadFrom(env, last)
    requires forall f | f in files :: f.rollout != last.rollout
    requires Meets(files[|files| - 1], last)
    ensures Resolved(env, files + [last])
  {
    hide ReadFrom, Meets;
    var all := files + [last];
    forall i | 0 <= i < |all| - 1
      ensures Meets(all[i], all[i + 1])
    {
      if i + 1 < |files| {
        assert Meets(files[i], files[i + 1]);
      }
    }
  }

  /** Every plan the walk returns is a complete lineage of distinct rollouts outside `seen`, ending in the rollout
      it was asked for. */
  lemma {:induction false} WalkFacts(env: Env, universe: set<string>, sel: Option<Selection>, next: seq<Candidate>,
                                     end: Option<HistoryPosition>, seen: set<string>, count: nat)
    requires env.limits.Valid()
    requires next != [] && Covers(universe, env.inv) && Covers(universe, next) && seen <= universe
    requires Walk(env, universe, sel, next, end, seen, count).Ok?
    ensures var files := Walk(env, universe, sel, next, end, seen, count).value;
            Resolved(env, files) && |files| + count <= env.limits.files &&
            (forall f | f in files :: f.rollout !in seen) &&
            Ok(files[|files| - 1]) == Agree(env, next, end) && files[|files| - 1].rollout == next[0].rollout
    decreases |universe - seen|
  {
    hide Agree, Joined, Distinct, ReadFrom, Resolved, MatchesSelection;
    var rollout := next[0].rollout;
    var chosen := Agree(env, next, end).value;
    ChosenFacts(env, next, end);
    if chosen.meta.base.None? {
      SingleFile(env, chosen);
    } else {
      var parents := ByRollout(env.inv, chosen.meta.base.value.rollout);
      assert rollout in universe - seen;
      SubsetSize(universe - (seen + {rollout}), universe - seen);
      WalkFacts(env, universe, sel, parents, chosen.meta.base, seen + {rollout}, count + 1);
      var rest := Walk(env, universe, sel, parents, chosen.meta.base, seen + {rollout}, count + 1).value;
      assert parents[0] in parents;
      ChosenFacts(env, parents, chosen.meta.base);
      assert Meets(rest[|rest| - 1], chosen);
      AppendFile(env, rest, chosen);
    }
  }

  lemma SingleFile(env: Env, f: File)
    requires ReadFrom(env, f) && f.meta.base.None?
    ensures Resolved(env, [f])
  {
  }

  lemma ChosenFacts(env: Env, cs: seq<Candidate>, end: Option<HistoryPosition>)
    requires env.limits.Valid() && cs != [] && Agree(env, cs, end).Ok?
    ensures var f := Agree(env, cs, end).value;
            ReadFrom(env, f) && f.rollout == cs[0].rollout && f.thread == cs[0].thread && f.prefix == end.Some? &&
            f.source == cs[0].path
    ensures var f := Agree(env, cs, end).value;
            end.Some? ==> f.meta.mode == "paginated" && f.lastOrdinal < MAX_U64 && f.bytes == end.value.endByte &&
                          f.lastOrdinal + 1 == end.value.endOrdinal
  {
    hide Describes, AdmittedMetadata, Read;
    AgreeFacts(env, cs, end);
    ReadFacts(env.w, env.tree[cs[0].path], cs[0], end, env.limits, env.snapshot);
  }

  lemma {:induction false} CheckMainFacts(main: seq<Candidate>, id: string, rollout: string)
    requires CheckMain(main, id, rollout).Ok?
    ensures forall c | c in main :: c.thread == id && c.rollout == rollout
  {
    if main != [] {
      CheckMainFacts(main[1..], id, rollout);
    }
  }

  /** The rollout whose representations MainForms returns belongs to the thread. */
  lemma MainFormsFacts(env: Env, sel: Option<Selection>, id: string)
    requires MainForms(env, sel, id).Ok?
    ensures var main := MainForms(env, sel, id).value;
            main != [] && forall c | c in main :: c.thread == id && c.rollout == main[0].rollout
  {
    hide SelectedForms;
    var main := MainForms(env, sel, id).value;
    CheckMainFacts(main, id, main[0].rollout);
  }

  /** What a complete plan is: a lineage whose last file alone is complete. */
  ghost predicate CompletePlan(env: Env, p: Plan) {
    Canonical(p.thread) && Resolved(env, p.files) && |p.files| <= env.limits.files &&
    p.files[|p.files| - 1].thread == p.thread && !p.files[|p.files| - 1].prefix &&
    forall i | 0 <= i < |p.files| - 1 :: p.files[i].prefix
  }

  lemma WalkComplete(env: Env, sel: Option<Selection>, main: seq<Candidate>, id: string)
    requires env.limits.Valid() && Canonical(id) && main != [] && main[0].thread == id
    requires Walk(env, Universe(env, main), sel, main, None, {}, 0).Ok?
    ensures CompletePlan(env, Plan(id, Walk(env, Universe(env, main), sel, main, None, {}, 0).value))
  {
    hide Walk, Agree, ReadFrom, Distinct;
    WalkFacts(env, Universe(env, main), sel, main, None, {}, 0);
    ChosenFacts(env, main, None);
    var files := Walk(env, Universe(env, main), sel, main, None, {}, 0).value;
    forall i | 0 <= i < |files| - 1
      ensures files[i].prefix
    {
      assert Meets(files[i], files[i + 1]);
    }
    assert Resolved(env, files);
    assert files[|files| - 1].thread == id;
    assert !files[|files| - 1].prefix;
    assert |files| <= env.limits.files;
  }

  /** What inspection and snapshot return: the requested thread last and complete, its prerequisites first. */
  lemma ResolveFacts(env: Env, thread: string, sel: Option<Selection>, after: Option<Selection>)
    requires Resolve(env, thread, sel, after).Ok?
    ensures CompletePlan(env, Resolve(env, thread, sel, after).value) && env.limits.Valid()
  {
    hide Walk, MainForms, CompletePlan;
    var id := ParseID(thread).value;
    ParseIDCanonical(id);
    MainFormsFacts(env, sel, id);
    WalkComplete(env, sel, MainForms(env, sel, id).value, id);
  }

  // ---- the whole history ----

  /** The record ordinals of all files of a lineage, one after the other. */
  function History(w: World, files: seq<File>): seq<u64> {
    if files == [] then []
    else History(w, files[..|files| - 1]) + Ordinals(w, ContentOf(w, files[|files| - 1]))
  }

  lemma FileOrdinals(env: Env, f: File)
    requires ReadFrom(env, f) && f.meta.mode == "paginated"
    ensures var o := Ordinals(env.w, ContentOf(env.w, f));
            o != [] && Increasing(o) && o[0] == FirstOrdinal(f.meta) && o[|o| - 1] == f.lastOrdinal
  {
    hide Summarize;
    PaginatedOrdinals(env.w, Stream(ContentOf(env.w, f), true), f.thread, None, env.limits);
  }

  lemma ConcatIncreasing(a: seq<u64>, b: seq<u64>)
    requires Increasing(a) && Increasing(b)
    requires a != [] && b != [] ==> a[|a| - 1] < b[0]
    ensures Increasing(a + b)
  {
    var c := a + b;
    forall i, j | 0 <= i < j < |c|
      ensures c[i] < c[j]
    {
      if i < |a| <= j {
        assert a[i] <= a[|a| - 1];
        assert b[0] <= b[j - |a|];
      }
    }
  }

  /** Over a paginated lineage the record ordinals increase strictly across all its files, from zero to the last
      ordinal of the requested rollout. */
  lemma {:induction false} LineageOrdinals(env: Env, files: seq<File>)
    requires files != [] && files[0].meta.base.None? && Joined(files)
    requires forall f | f in files :: ReadFrom(env, f)
    requires files[|files| - 1].meta.mode == "paginated"
    ensures var h := History(env.w, files);
            h != [] && Increasing(h) && h[0] == 0 && h[|h| - 1] == files[|files| - 1].lastOrdinal
  {
    hide ReadFrom, Ordinals, ContentOf;
    var last, init := files[|files| - 1], files[..|files| - 1];
    FileOrdinals(env, last);
    if init == [] {
      assert History(env.w, init) == [];
    } else {
      assert init[|init| - 1] == files[|files| - 2];
      assert files[|files| - 2 + 1] == last;
      LineageOrdinals(env, init);
      ConcatIncreasing(History(env.w, init), Ordinals(env.w, ContentOf(env.w, last)));
    }
  }
}
