// The two ways a publication changes live storage, and why neither disturbs any conversation:
// publishPrefix of internal/session/extend.go and the link of internal/session/publish.go.

module Steps {
  import opened Model
  import opened Format
  import opened Rollout
  import opened Cutoff
  import opened Inspect
  import opened Lineage

  /** One durable change: a managed prefix replaced by rename, or a new file linked at an unused path. */
  datatype Step = Extend(path: string, was: Node, node: Node) | Install(path: string, node: Node)

  function ApplyStep(tree: Tree, s: Step): Tree {
    tree[s.path := s.node]
  }

  function Apply(tree: Tree, steps: seq<Step>): Tree {
    if steps == [] then tree else ApplyStep(Apply(tree, steps[..|steps| - 1]), steps[|steps| - 1])
  }

  /** os.SameFile, size and modification time. */
  predicate SameStored(a: Node, b: Node) {
    a.ino == b.ino && |a.raw| == |b.raw| && a.mtime == b.mtime
  }

  /** The system call goes through. */
  predicate Enabled(tree: Tree, s: Step) {
    match s
    case Extend(path, was, _) => path in tree && SameStored(was, tree[path])
    case Install(path, _) => path !in tree
  }

  /** The authoritative rows of the state database, by thread. */
  type Rows = map<string, Selection>

  function RowOf(rows: Rows, thread: string): Option<Selection> {
    if thread in rows then Some(rows[thread]) else None
  }

  /** What readers of a path see. */
  function Visible(w: World, path: string, node: Node): Stream {
    Decoded(w, path, node.raw)
  }

  predicate Grows(a: Stream, b: Stream) {
    a.clean && b.clean && a.data <= b.data
  }

  function IdsOf(path: string): Candidate
    requires Listed(path)
  {
    ParseName(path).value
  }

  predicate SafeExtend(w: World, tree: Tree, path: string, node: Node) {
    path in tree && Listed(path) && PrerequisitePath(path) &&
      Grows(Visible(w, path, tree[path]), Visible(w, path, node))
  }

  /** A managed prefix of the same rollout whose bytes the installed file continues. */
  predicate Continued(w: World, tree: Tree, path: string, node: Node, q: string)
    requires Listed(path) && Listed(q) && q in tree
  {
    !PrerequisitePath(path) && PrerequisitePath(q) && IdsOf(q).thread == IdsOf(path).thread &&
    Grows(Visible(w, q, tree[q]), Visible(w, path, node))
  }

  ghost predicate SafeInstall(w: World, tree: Tree, rows: Rows, path: string, node: Node) {
    path !in tree && Listed(path) &&
    (forall q | q in tree && Listed(q) &&
      IdsOf(q).rollout == IdsOf(path).rollout :: Continued(w, tree, path, node, q)) &&
    (!PrerequisitePath(path) ==>
       (forall q | q in tree && Listed(q) && IdsOf(q).thread == IdsOf(path).thread :: PrerequisitePath(q)) &&
       (IdsOf(path).thread in rows ==> PrerequisitePath(rows[IdsOf(path).thread].path)))
  }

  /** A change that leaves every readable history readable. */
  ghost predicate Safe(w: World, tree: Tree, rows: Rows, s: Step) {
    Enabled(tree, s) && if s.Extend? then SafeExtend(w, tree, s.path, s.node) else SafeInstall(w, tree, rows, s.path,
      s.node)
  }

  // ---- append-only storage ----

  /** Every file keeps its bytes, except that a managed prerequisite may have grown at its end. */
  ghost predicate AppendOnly(w: World, before: Tree, after: Tree) {
    forall p | p in before ::
      p in after && (after[p] == before[p] || (PrerequisitePath(p) &&
        Grows(Visible(w, p, before[p]), Visible(w, p, after[p]))))
  }

  lemma StepAppends(w: World, tree: Tree, rows: Rows, s: Step)
    requires Safe(w, tree, rows, s)
    ensures AppendOnly(w, tree, ApplyStep(tree, s))
  {
    hide Listed, IdsOf, Continued, SafeInstall;
    if s.Install? {
      assert s.path !in tree;
    }
  }

  lemma AppendsCompose(w: World, a: Tree, b: Tree, c: Tree)
    requires AppendOnly(w, a, b) && AppendOnly(w, b, c)
    ensures AppendOnly(w, a, c)
  {
    hide Decoded, PrerequisitePath;
    forall p | p in a
      ensures p in c && (c[p] == a[p] || (PrerequisitePath(p) && Grows(Visible(w, p, a[p]), Visible(w, p, c[p]))))
    {
      assert p in b;
    }
  }

  // ---- histories ----

  /** Two files of a lineage that no reader can tell apart by what they hold. */
  predicate SameHistory(f: File, g: File) {
    f.rollout == g.rollout && SameContent(f, g) && f.prefix == g.prefix && f.meta == g.meta &&
      f.lastOrdinal == g.lastOrdinal
  }

  predicate SameLineage(a: seq<File>, b: seq<File>) {
    |a| == |b| && forall i | 0 <= i < |a| :: SameHistory(a[i], b[i])
  }

  /** The same home before and after a step (or none), as the same inspection sees it. */
  ghost predicate Around(w: World, rows: Rows, s: Option<Step>, e0: Env, e1: Env) {
    e0.w == w == e1.w && CollisionFree(w) && e0.limits == e1.limits && e0.limits.Valid() &&
      e0.snapshot == e1.snapshot &&
    (s.Some? ==> Safe(w, e0.tree, rows, s.value)) &&
    e1.tree == (if s.Some? then ApplyStep(e0.tree, s.value) else e0.tree) &&
    InventoryOf(e0.tree, e0.inv) && InventoryOf(e1.tree, e1.inv)
  }

  /** Reading at a cutoff from a file that continues a readable one. */
  lemma ReadGrown(w: World, n0: Node, c0: Candidate, n1: Node, c1: Candidate, end: HistoryPosition, limits: Limits,
                  snapshot: bool)
    requires c0.thread == c1.thread && c0.rollout == c1.rollout
    requires Visible(w, c0.path, n0).data <= Visible(w, c1.path, n1).data
    requires Read(w, n0, c0, Some(end), limits, snapshot).Ok?
    ensures Read(w, n1, c1, Some(end), limits, snapshot).Ok?
    ensures SameHistory(Read(w, n0, c0, Some(end), limits, snapshot).value,
                        Read(w, n1, c1, Some(end), limits, snapshot).value)
  {
    hide Summarize, Decoded;
    var s, t := Visible(w, c0.path, n0), Visible(w, c1.path, n1);
    SummaryCovers(w, s, c0.thread, Some(end), limits);
    assert t.data[..end.endByte] == s.data[..end.endByte];
    CutoffLocality(w, s, t, c0.thread, end, limits);
  }

  /** Files with the same bytes have the same metadata. */
  lemma SameContentSameHistory(env: Env, f: File, g: File)
    requires CollisionFree(env.w) && ReadFrom(env, f) && ReadFrom(env, g)
    requires SameContent(f, g) && f.rollout == g.rollout && f.prefix == g.prefix
    ensures SameHistory(f, g)
  {
    hide Summarize, Decoded;
    assert env.w.hash(ContentOf(env.w, f)) == env.w.hash(ContentOf(env.w, g));
    assert ContentOf(env.w, f) == ContentOf(env.w, g);
  }

  /** A candidate for an inherited rollout after the step has one before it whose bytes it continues. */
  lemma Ancestor(w: World, rows: Rows, s: Option<Step>, e0: Env, e1: Env, c1: Candidate,
                 c0: Candidate) returns (c: Candidate)
    requires Around(w, rows, s, e0, e1)
    requires c1 in e1.inv && c0 in e0.inv && c0.rollout == c1.rollout
    ensures c in e0.inv && c.rollout == c1.rollout && c.thread == c1.thread
    ensures Visible(w, c.path, e0.tree[c.path]).data <= Visible(w, c1.path, e1.tree[c1.path]).data
  {
    hide ParseName, ManagedPath, Decoded, CollisionFree, PrerequisitePath;
    if c1.path in e0.tree {
      c := c1;
      assert Listed(c1.path) && ParseName(c1.path) == Some(c1);
    } else {
      c := c0;
      var step := s.value;
      assert step.Install? && step.path == c1.path && IdsOf(step.path) == c1;
      assert IdsOf(c0.path) == c0;
      assert Continued(w, e0.tree, step.path, step.node, c0.path);
    }
  }

  /** A step cannot take away or change what an inherited rollout holds at a cutoff. */
  lemma AgreeKept(w: World, rows: Rows, s: Option<Step>, e0: Env, e1: Env, rollout: string, end: HistoryPosition)
    requires Around(w, rows, s, e0, e1)
    requires var cs := ByRollout(e0.inv, rollout); cs != [] && Agree(e0, cs, Some(end)).Ok?
    ensures ByRollout(e1.inv, rollout) != []
    ensures Agree(e1, ByRollout(e1.inv, rollout), Some(end)).Ok?
    ensures SameHistory(Agree(e0, ByRollout(e0.inv, rollout), Some(end)).value,
                        Agree(e1, ByRollout(e1.inv, rollout), Some(end)).value)
  {
    hide Agree, Safe, Read, ParseName, ManagedPath, PrerequisitePath, CollisionFree;
    var cs0, cs1 := ByRollout(e0.inv, rollout), ByRollout(e1.inv, rollout);
    assert cs0[0] in cs0 && cs0[0] in e0.inv;
    assert ParseName(cs0[0].path).value in e1.inv;
    assert cs0[0] in cs1;
    var f0 := Agree(e0, cs0, Some(end)).value;
    forall c1 | c1 in cs1
      ensures ReadCandidate(e1, c1, Some(end)).Ok?
      ensures SameHistory(f0, ReadCandidate(e1, c1, Some(end)).value)
    {
      CandidateKept(w, rows, s, e0, e1, rollout, end, c1);
    }
    assert cs1[0] in cs1;
    AgreeFacts(e1, cs1, Some(end));
  }

  lemma CandidateKept(w: World, rows: Rows, s: Option<Step>, e0: Env, e1: Env, rollout: string, end: HistoryPosition,
                      c1: Candidate)
    requires Around(w, rows, s, e0, e1)
    requires var cs := ByRollout(e0.inv, rollout); cs != [] && Agree(e0, cs, Some(end)).Ok?
    requires c1 in e1.inv && c1.rollout == rollout
    ensures ReadCandidate(e1, c1, Some(end)).Ok?
    ensures SameHistory(Agree(e0, ByRollout(e0.inv, rollout), Some(end)).value, ReadCandidate(e1, c1, Some(end)).value)
  {
    hide Agree, Safe, Read, ParseName, ManagedPath, PrerequisitePath, CollisionFree, ReadFrom;
    var cs0 := ByRollout(e0.inv, rollout);
    assert cs0[0] in cs0;
    AgreeFacts(e0, cs0, Some(end));
    var f0 := Agree(e0, cs0, Some(end)).value;
    var c := Ancestor(w, rows, s, e0, e1, c1, cs0[0]);
    assert c in cs0;
    var f := ReadCandidate(e0, c, Some(end)).value;
    CandidateFile(e0, c, end);
    CandidateFile(e0, cs0[0], end);
    SameContentSameHistory(e0, f0, f);
    ReadGrown(w, e0.tree[c.path], c, e1.tree[c1.path], c1, end, e0.limits, e0.snapshot);
  }

  lemma CandidateFile(env: Env, c: Candidate, end: HistoryPosition)
    requires env.limits.Valid() && ReadCandidate(env, c, Some(end)).Ok?
    ensures var f := ReadCandidate(env, c, Some(end)).value;
            ReadFrom(env, f) && f.rollout == c.rollout && f.thread == c.thread && f.prefix
  {
    hide Read, Describes, AdmittedMetadata;
    ReadFacts(env.w, env.tree[c.path], c, Some(end), env.limits, env.snapshot);
  }
}
