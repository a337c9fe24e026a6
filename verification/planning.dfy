// From an accepted check to the steps a publication makes, and why they are safe:
// publish of internal/session/publish.go.

module Planning {
  import opened Model
  import opened Format
  import opened Rollout
  import opened Inspect
  import opened Lineage
  import opened Conflicts
  import opened Steps
  import opened Schedule
  import opened Comparison

  /** The bytes written for a path: compressed paths hold the encoder's output. */
  function Encode(w: World, path: string, content: Bytes): Bytes {
    if HasSuffix(path, ".zst") then w.deflate(content) else content
  }

  lemma EncodeVisible(w: World, path: string, content: Bytes, node: Node)
    requires Lossless(w) && node.raw == Encode(w, path, content)
    ensures Visible(w, path, node) == Stream(content, true)
  {
  }

  /** Inodes in the private stage: the received files, and a longer copy for every prefix to grow. */
  datatype Stage = Stage(staged: seq<Node>, prepared: seq<seq<Node>>)

  predicate Prepared(w: World, f: File, content: Bytes, extensions: seq<File>, nodes: seq<Node>) {
    |nodes| == |extensions| &&
    forall j | 0 <= j < |nodes| :: nodes[j].raw == Encode(w, extensions[j].source, content) &&
      nodes[j].mtime == f.modified
  }

  predicate StageFor(w: World, inc: Incoming, choices: seq<Choice>, stage: Stage) {
    |choices| == |inc.files| == |inc.payload| == |stage.staged| == |stage.prepared| &&
    forall i | 0 <= i < |inc.files| ::
      stage.staged[i].raw == inc.payload[i] && stage.staged[i].mtime == inc.files[i].modified &&
      Prepared(w, inc.files[i], inc.payload[i], choices[i].extensions, stage.prepared[i])
  }

  function ExtendSteps(extensions: seq<File>, nodes: seq<Node>): (r: seq<Step>)
    requires |extensions| == |nodes|
    ensures |r| == |extensions|
    ensures forall j | 0 <= j < |r| :: r[j] == Extend(extensions[j].source, extensions[j].stored, nodes[j])
  {
    seq(|extensions|, j requires 0 <= j < |extensions| => Extend(extensions[j].source, extensions[j].stored, nodes[j]))
  }

  function StepsFor(w: World, inc: Incoming, choices: seq<Choice>, stage: Stage, i: nat): seq<Step>
    requires StageFor(w, inc, choices, stage) && i < |choices|
  {
    ExtendSteps(choices[i].extensions, stage.prepared[i]) +
    if choices[i].present then [] else [Install(choices[i].path, stage.staged[i])]
  }

  /** The steps of the files before the n-th, in the order publish makes them. */
  function StepsUpTo(w: World, inc: Incoming, choices: seq<Choice>, stage: Stage, n: nat): seq<Step>
    requires StageFor(w, inc, choices, stage) && n <= |choices|
  {
    if n == 0 then [] else StepsUpTo(w, inc, choices, stage, n - 1) + StepsFor(w, inc, choices, stage, n - 1)
  }

  function StepsOf(w: World, inc: Incoming, choices: seq<Choice>, stage: Stage): seq<Step>
    requires StageFor(w, inc, choices, stage)
  {
    StepsUpTo(w, inc, choices, stage, |choices|)
  }

  /** A publication whose check succeeded. */
  ghost predicate Accepted(t: Target, inc: Incoming) {
    ValidIncoming(t.w, t.limits, inc) && CollisionFree(t.w) && Lossless(t.w) && InventoryOf(t.tree, t.inv) &&
    Check(t, inc).Ok?
  }

  function AdmissionOf(t: Target, inc: Incoming): Admission
    requires inc.files != [] && AdmitSelection(t, inc).Ok?
  {
    AdmitSelection(t, inc).value
  }

  /** The candidates the selected row adds to the inventory. */
  function ExtraOf(t: Target, inc: Incoming): seq<Candidate>
    requires inc.files != [] && AdmitSelection(t, inc).Ok?
  {
    var inv := AdmissionOf(t, inc).inv;
    if |t.inv| <= |inv| then inv[|t.inv|..] else []
  }

  lemma AcceptedFacts(t: Target, inc: Incoming)
    requires Accepted(t, inc)
    ensures 1 <= |inc.files| == |inc.payload| && AdmitSelection(t, inc).Ok? && Check(t, inc).Ok?
    ensures Unrivalled(t, inc, AdmissionOf(t, inc)) && AllFit(t, inc, AdmissionOf(t, inc), 0)
    ensures var choices := Check(t, inc).value;
            |choices| == |inc.files| && forall i | 0 <= i < |choices| ::
              WeighAll(t, inc, i, FreshChoice(inc, i, AdmissionOf(t, inc).repair), AdmissionOf(t,
                inc).inv) == Ok(choices[i])
  {
    hide AdmitSelection, Unrivalled, AllFit, ChooseFrom, WeighAll, FreshChoice, ValidFile;
    CheckAccepts(t, inc);
    ChooseFromFacts(t, inc, AdmissionOf(t, inc), 0);
  }

  // ---- what the selected row adds ----

  /** Beyond the inventory only the forms of a legacy main file are considered, and a complete selection is among
      the candidates of the main rollout. */
  lemma AdmissionFacts(t: Target, inc: Incoming)
    requires inc.files != [] && InventoryOf(t.tree, t.inv) && AdmitSelection(t, inc).Ok?
    ensures var a := AdmissionOf(t, inc);
            |t.inv| <= |a.inv| && a.inv[..|t.inv|] == t.inv &&
            (forall c | c in a.inv[|t.inv|..] :: Added(t, inc, c)) &&
            (a.repair.Some? ==> a.repair == t.sel && PrerequisitePath(t.sel.value.path)) &&
            (t.sel.Some? && a.repair.None? ==>
               exists c | c in a.inv :: c.rollout == Main(inc).rollout && !PrerequisitePath(c.path))
  {
    hide ParseName, ManagedPath, PrerequisitePath, ValidRelative, RepairablePath, TrimSuffix;
    var a := AdmissionOf(t, inc);
    if t.sel.Some? {
      var path := t.sel.value.path;
      var c := SelectedCandidate(t.sel.value, Main(inc)).value;
      SelectableForms(path);
      var forms := Forms(t.inv, path);
      var added := if forms == [] then PresentForms(t.tree, path, c) else [];
      assert a.inv == t.inv + added;
      assert a.inv[..|t.inv|] == t.inv && a.inv[|t.inv|..] == added;
      forall d | d in added
        ensures Added(t, inc, d)
      {
        AddedForm(t, inc, c, d);
      }
      if a.repair.None? {
        if forms != [] {
          assert forms[0] in forms && forms[0] in a.inv;
          FormsAlike(forms[0].path, path);
          assert ParseName(path).Some?;
        } else {
          assert added[0] in added && added[0] in a.inv;
          FormsOf(path, added[0].path);
          FormsAlike(added[0].path, path);
        }
      }
    } else {
      assert a.inv[|t.inv|..] == [];
    }
  }

  /** A form of a legacy selection that the inventory cannot list. */
  predicate Added(t: Target, inc: Incoming, c: Candidate)
    requires inc.files != []
  {
    c.path in t.tree && !PrerequisitePath(c.path) && !Listed(c.path) &&
    c.thread == Main(inc).thread && c.rollout == Main(inc).rollout
  }

  lemma SelectableForms(path: string)
    requires SelectablePath(path)
    ensures HasSuffix(TrimSuffix(path, ".zst"), ".jsonl")
  {
    hide ValidRelative;
    SelectableSuffix(path);
  }

  lemma FormsOf(path: string, p: string)
    requires HasSuffix(TrimSuffix(path, ".zst"), ".jsonl")
    requires p == TrimSuffix(path, ".zst") || p == TrimSuffix(path, ".zst") + ".zst"
    ensures TrimSuffix(p, ".zst") == TrimSuffix(path, ".zst")
  {
    NotCompressed(TrimSuffix(path, ".zst"));
    TrimForm(TrimSuffix(path, ".zst"));
  }

  lemma AddedForm(t: Target, inc: Incoming, c: Candidate, d: Candidate)
    requires inc.files != [] && InventoryOf(t.tree, t.inv) && AdmitSelection(t, inc).Ok? && t.sel.Some?
    requires Forms(t.inv, t.sel.value.path) == [] && Some(c) == SelectedCandidate(t.sel.value, Main(inc))
    requires d in PresentForms(t.tree, t.sel.value.path, c)
    ensures Added(t, inc, d)
  {
    hide ParseName, ManagedPath, PrerequisitePath, ValidRelative, TrimSuffix, Filter;
    var path := t.sel.value.path;
    SelectableForms(path);
    FormsOf(path, d.path);
    FormsAlike(d.path, path);
    ListedForm(t, path, d.path);
    assert ManagedPath(path);
    assert ParseName(path).None?;
  }

  lemma ListedForm(t: Target, path: string, p: string)
    requires InventoryOf(t.tree, t.inv) && p in t.tree && TrimSuffix(p, ".zst") == TrimSuffix(path, ".zst")
    ensures Listed(p) ==> Forms(t.inv, path) != []
  {
    hide ParseName, ManagedPath, TrimSuffix, Filter;
    if Listed(p) {
      PathOfIds(p);
      assert IdsOf(p) in Forms(t.inv, path);
    }
  }

  lemma PathOfIds(p: string)
    requires Listed(p)
    ensures IdsOf(p).path == p
  {
    ParsedPath(p);
  }

  // ---- the planned steps ----

  /** The rollout is present: no new file is needed. */
  predicate Present(inc: Incoming, a: Admission, i: nat)
    requires i < |inc.files|
  {
    exists c | c in a.inv :: Usable(inc, i, c)
  }

  ghost predicate Planned(t: Target, inc: Incoming, i: nat, s: Step)
    requires i < |inc.files| == |inc.payload| && AdmitSelection(t, inc).Ok?
  {
    Listed(s.path) && For(inc, i, IdsOf(s.path)) && Visible(t.w, s.path, s.node) == Stream(inc.payload[i], true) &&
    s.node.raw == Encode(t.w, s.path, inc.payload[i]) && s.node.mtime == inc.files[i].modified &&
    match s
    case Extend(path, was, _) =>
      PrerequisitePath(path) && path in t.tree && was == t.tree[path] && Visible(t.w, path, was).clean &&
      Visible(t.w, path, was).data < inc.payload[i] && IdsOf(path) in t.inv && MustGrow(t, inc, i, IdsOf(path))
    case Install(path, _) =>
      path == inc.files[i].path && !Present(inc, AdmissionOf(t, inc), i)
  }

  /** Only listed managed prefixes grow. */
  lemma GrowingCandidate(t: Target, inc: Incoming, i: nat, c: Candidate)
    requires Accepted(t, inc) && i < |inc.files| == |inc.payload|
    requires AdmitSelection(t, inc).Ok? && c in AdmissionOf(t, inc).inv && MustGrow(t, inc, i, c)
    ensures c in t.inv && c.path in t.tree && Listed(c.path) && IdsOf(c.path) == c && PrerequisitePath(c.path)
    ensures var f := Compare(t.w, t.limits, inc, i, t.tree[c.path], c).value.0;
            f.source == c.path && f.stored == t.tree[c.path] &&
            Visible(t.w, c.path, t.tree[c.path]).clean && Visible(t.w, c.path, t.tree[c.path]).data < inc.payload[i]
  {
    hide Compare, ParseName, ManagedPath, PrerequisitePath, AdmitSelection, ValidIncoming, CollisionFree, Decoded,
         Check;
    AdmissionFacts(t, inc);
    CompareFacts(t.w, t.limits, inc, i, t.tree[c.path], c);
    var a := AdmissionOf(t, inc);
    EitherPart(a.inv, |t.inv|, c);
  }

  lemma EitherPart(s: seq<Candidate>, n: nat, c: Candidate)
    requires n <= |s| && c in s
    ensures c in s[..n] || c in s[n..]
  {
    assert s == s[..n] + s[n..];
  }

  lemma ChoiceAt(t: Target, inc: Incoming, i: nat)
    requires Accepted(t, inc) && i < |inc.files|
    ensures |inc.files| == |inc.payload| && AdmitSelection(t, inc).Ok? && Check(t, inc).Ok? && i < |Check(t, inc).value|
    ensures var ch, a := Check(t, inc).value[i], AdmissionOf(t, inc);
            ch.extensions == Extensions(t, inc, i, a.inv) && (ch.present <==> Present(inc, a, i)) &&
            (!ch.present ==> ch.path == inc.files[i].path) && AllOf(t, inc, i, a.inv) &&
            ch.repair == (if inc.files[i].prefix then None else a.repair) &&
            (ch.promoted <==> exists c | c in a.inv ::
               c.rollout == inc.files[i].rollout && !inc.files[i].prefix && PrerequisitePath(c.path))
  {
    hide AdmitSelection, WeighAll, Extensions, AllOf, Accepted, Usable, PrerequisitePath, Check;
    AcceptedFacts(t, inc);
    var a := AdmissionOf(t, inc);
    WeighAllFacts(t, inc, i, FreshChoice(inc, i, a.repair), a.inv);
    assert [] + Extensions(t, inc, i, a.inv) == Extensions(t, inc, i, a.inv);
  }

  lemma PlannedExtension(t: Target, inc: Incoming, stage: Stage, i: nat, j: nat)
    requires Accepted(t, inc) && StageFor(t.w, inc, Check(t, inc).value, stage) && i < |inc.files|
    requires j < |Check(t, inc).value[i].extensions|
    ensures AdmitSelection(t, inc).Ok?
    ensures var f := Check(t, inc).value[i].extensions[j];
            Planned(t, inc, i, Extend(f.source, f.stored, stage.prepared[i][j]))
  {
    hide AdmitSelection, Extensions, AllOf, Accepted, PrerequisitePath, Check, Compare, ParseName, ManagedPath,
         ValidIncoming, Decoded, Encode;
    ChoiceAt(t, inc, i);
    var a, f, node := AdmissionOf(t, inc), Check(t, inc).value[i].extensions[j], stage.prepared[i][j];
    assert f in Extensions(t, inc, i, a.inv);
    ExtensionsAre(t, inc, i, a.inv);
    var c :| c in a.inv && MustGrow(t, inc, i, c) && f == Compare(t.w, t.limits, inc, i, t.tree[c.path], c).value.0;
    GrowingCandidate(t, inc, i, c);
    assert Prepared(t.w, inc.files[i], inc.payload[i], Check(t, inc).value[i].extensions, stage.prepared[i]);
    AcceptedLossless(t, inc);
    EncodeVisible(t.w, f.source, inc.payload[i], node);
    GrowingFor(t, inc, i, c);
  }

  lemma GrowingFor(t: Target, inc: Incoming, i: nat, c: Candidate)
    requires i < |inc.files| == |inc.payload| && MustGrow(t, inc, i, c)
    ensures For(inc, i, c)
  {
    hide Compare;
  }

  lemma AcceptedLossless(t: Target, inc: Incoming)
    requires Accepted(t, inc)
    ensures Lossless(t.w) && CollisionFree(t.w) && ValidIncoming(t.w, t.limits, inc) && InventoryOf(t.tree, t.inv)
  {
  }

  lemma PlannedInstall(t: Target, inc: Incoming, stage: Stage, i: nat)
    requires Accepted(t, inc) && StageFor(t.w, inc, Check(t, inc).value, stage) && i < |inc.files|
    requires !Check(t, inc).value[i].present
    ensures AdmitSelection(t, inc).Ok?
    ensures Planned(t, inc, i, Install(Check(t, inc).value[i].path, stage.staged[i]))
  {
    hide AdmitSelection, Extensions, AllOf, Accepted, PrerequisitePath, Check, ParseName, ManagedPath, Describes,
         Present, Prepared;
    ChoiceAt(t, inc, i);
    AcceptedLossless(t, inc);
    ValidAt(t.w, t.limits, inc, i);
    NotCompressed(inc.files[i].path);
    EncodeVisible(t.w, inc.files[i].path, inc.payload[i], stage.staged[i]);
  }

  /** Every step of a publication is planned for one of its files. */
  lemma StepsForPlanned(t: Target, inc: Incoming, stage: Stage, i: nat)
    requires Accepted(t, inc) && StageFor(t.w, inc, Check(t, inc).value, stage) && i < |inc.files|
    ensures AdmitSelection(t, inc).Ok? && |inc.files| == |inc.payload|
    ensures forall s | s in StepsFor(t.w, inc, Check(t, inc).value, stage, i) :: Planned(t, inc, i, s)
  {
    hide AdmitSelection, Accepted, Check, Planned, Encode;
    ChoiceAt(t, inc, i);
    var ch := Check(t, inc).value[i];
    forall s | s in StepsFor(t.w, inc, Check(t, inc).value, stage, i)
      ensures Planned(t, inc, i, s)
    {
      var e := ExtendSteps(ch.extensions, stage.prepared[i]);
      if s in e {
        var j :| 0 <= j < |e| && e[j] == s;
        PlannedExtension(t, inc, stage, i, j);
      } else {
        PlannedInstall(t, inc, stage, i);
      }
    }
  }
}
