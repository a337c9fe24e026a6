// Planning a publication against everything the destination already holds:
// compareExisting of internal/session/extend.go and checkConflicts of internal/session/publish.go.

module Conflicts {
  import opened Model
  import opened Format
  import opened Rollout
  import opened Cutoff
  import opened Inspect
  import opened Lineage

  /** A received transfer: its plan and the staged bytes of each file; `source` is the file's slot in the stage. */
  datatype Incoming = Incoming(thread: string, files: seq<File>, payload: seq<Bytes>)

  /** The destination as one check sees it. */
  datatype Target = Target(w: World, limits: Limits, tree: Tree, inv: seq<Candidate>, sel: Option<Selection>)

  // ---- what Receive guarantees ----

  predicate ValidFile(w: World, limits: Limits, f: File, content: Bytes) {
    Describes(w, limits, f, content) && |content| == f.bytes && 0 < f.bytes <= limits.fileBytes &&
      f.sha == w.hash(content) &&
    ParseName(f.path) == Some(Candidate(f.path, f.thread, f.rollout)) && ManagedPath(f.path) &&
    HasSuffix(f.path, ".jsonl") && (PrerequisitePath(f.path) <==> f.prefix) && !HasSuffix(f.source, ".zst")
  }

  /** A validated incoming conversation: a complete lineage, prerequisites first. */
  ghost predicate ValidIncoming(w: World, limits: Limits, inc: Incoming) {
    limits.Valid() && 1 <= |inc.files| == |inc.payload| <= limits.files && Canonical(inc.thread) &&
    (forall i | 0 <= i < |inc.files| :: ValidFile(w, limits, inc.files[i], inc.payload[i])) &&
    inc.files[0].meta.base.None? && Joined(inc.files) && Distinct(inc.files) &&
    !inc.files[|inc.files| - 1].prefix && inc.files[|inc.files| - 1].thread == inc.thread
  }

  lemma PrefixUnlessLast(w: World, limits: Limits, inc: Incoming, i: nat)
    requires ValidIncoming(w, limits, inc) && i < |inc.files|
    ensures inc.files[i].prefix <==> i < |inc.files| - 1
    ensures i < |inc.files| - 1 ==>
              inc.files[i].meta.mode == "paginated" && inc.files[i].lastOrdinal < MAX_U64 &&
              inc.files[i + 1].meta.base.Some? && EndsAt(inc.files[i + 1].meta.base.value, inc.files[i])
  {
    hide ValidFile;
    assert i < |inc.files| - 1 ==> Meets(inc.files[i], inc.files[i + 1]);
  }

  // ---- compareExisting ----

  /** The cutoff the incoming lineage needs of its i-th file; none for the main rollout. */
  function CutoffFor(inc: Incoming, i: nat): Option<HistoryPosition>
    requires i < |inc.files|
  {
    if inc.files[i].prefix && i + 1 < |inc.files| then inc.files[i + 1].meta.base else None
  }

  function StagedNode(inc: Incoming, i: nat): Node
    requires i < |inc.files| == |inc.payload|
  {
    Node(0, inc.payload[i], inc.files[i].modified)
  }

  function StagedCandidate(f: File): Candidate {
    Candidate(f.source, f.thread, f.rollout)
  }

  /** Whether an existing managed prefix can grow into the incoming bytes. */
  function CompareGrowth(w: World, limits: Limits, inc: Incoming, i: nat, existing: File): Result<(File, bool)>
    requires i < |inc.files| == |inc.payload|
  {
    var f := inc.files[i];
    if existing.meta.mode != "paginated" || existing.lastOrdinal == MAX_U64 then Err(NotExtendable)
    else
      var cutoff := HistoryPosition(f.rollout, existing.lastOrdinal + 1, existing.bytes);
      var staged :- Read(w, StagedNode(inc, i), StagedCandidate(f), Some(cutoff), limits, false);
      if staged.sha != existing.sha || staged.bytes != existing.bytes then Err(Diverges) else Ok((existing, true))
  }

  /** compareExisting: the existing file, and whether it must be extended. */
  function Compare(w: World, limits: Limits, inc: Incoming, i: nat, node: Node, c: Candidate): Result<(File, bool)>
    requires i < |inc.files| == |inc.payload|
  {
    var f := inc.files[i];
    var at := Read(w, node, c, CutoffFor(inc, i), limits, false);
    if !PrerequisitePath(c.path) || (f.prefix && at.Ok?) || (!f.prefix && at.Err?) then
      if at.Ok? then Ok((at.value, false)) else Err(at.error)
    else
      var whole := if f.prefix then Read(w, node, c, None, limits, false) else at;
      if whole.Err? then Err(at.error)
      else if whole.value.bytes >= f.bytes then
        (if !f.prefix then Ok((whole.value, false)) else Err(at.error))
      else CompareGrowth(w, limits, inc, i, whole.value)
  }

  method CompareExisting(w: World, limits: Limits, inc: Incoming, i: nat, node: Node, c: Candidate)
    returns (r: Result<(File, bool)>)
    requires i < |inc.files| == |inc.payload| && limits.Valid()
    ensures r == Compare(w, limits, inc, i, node, c)
  {
    hide Read;
    var incoming := inc.files[i];
    var at := ReadRolloutFile(w, node, c, CutoffFor(inc, i), limits, false);
    if !PrerequisitePath(c.path) || (incoming.prefix && at.Ok?) || (!incoming.prefix && at.Err?) {
      return if at.Ok? then Ok((at.value, false)) else Err(at.error);
    }
    var existing := at;
    if incoming.prefix {
      existing := ReadRolloutFile(w, node, c, None, limits, false);
      if existing.Err? {
        return Err(at.error);
      }
    }
    if existing.value.bytes >= incoming.bytes {
      if !incoming.prefix {
        return Ok((existing.value, false));
      }
      return Err(at.error);
    }
    if existing.value.meta.mode != "paginated" || existing.value.lastOrdinal == MAX_U64 {
      return Err(NotExtendable);
    }
    var cutoff := HistoryPosition(incoming.rollout, existing.value.lastOrdinal + 1, existing.value.bytes);
    var staged := ReadRolloutFile(w, StagedNode(inc, i), StagedCandidate(incoming), Some(cutoff), limits, false);
    if staged.Err? {
      return Err(staged.error);
    }
    if staged.value.sha != existing.value.sha || staged.value.bytes != existing.value.bytes {
      return Err(Diverges);
    }
    return Ok((existing.value, true));
  }

  // ---- checkConflicts ----

  datatype Choice = Choice(path: string, present: bool, extensions: seq<File>, promoted: bool,
    repair: Option<Selection>)

  function Main(inc: Incoming): File
    requires inc.files != []
  {
    inc.files[|inc.files| - 1]
  }

  /** What the selected row contributes: the inventory with an authoritative legacy file added, and the row when it
      must be repaired because it names a prerequisite. */
  datatype Admission = Admission(inv: seq<Candidate>, repair: Option<Selection>)

  function SelectedCandidate(sel: Selection, main: File): Option<Candidate> {
    if ParseName(sel.path).Some? then ParseName(sel.path)
    else if sel.mode == "legacy" then Some(Candidate(sel.path, main.thread, main.thread))
    else None
  }

  predicate RepairablePath(sel: Selection, inc: Incoming, c: Candidate)
    requires inc.files != []
  {
    (exists f | f in inc.files :: f.thread == Main(inc).thread && f.rollout == c.rollout) &&
    sel.mode == "paginated" && Main(inc).meta.mode == "paginated" &&
    TrimSuffix(sel.path, ".zst") == PREREQUISITE_ROOT + c.rollout + "/" + Base(TrimSuffix(sel.path, ".zst"))
  }

  function PresentForms(tree: Tree, path: string, c: Candidate): (r: seq<Candidate>)
    ensures forall d | d in r :: d.path in tree && d.thread == c.thread && d.rollout == c.rollout
  {
    var plain := TrimSuffix(path, ".zst");
    (if plain in tree then [Candidate(plain, c.thread, c.rollout)] else []) +
    (if plain + ".zst" in tree then [Candidate(plain + ".zst", c.thread, c.rollout)] else [])
  }

  function AdmitSelection(t: Target, inc: Incoming): Result<Admission>
    requires inc.files != []
  {
    var main := Main(inc);
    if t.sel.None? then Ok(Admission(t.inv, None))
    else
      var sel := t.sel.value;
      var c := SelectedCandidate(sel, main);
      if !SelectablePath(sel.path) then Err(UnmanagedSelection)
      else if c.None? || (PrerequisitePath(sel.path) && !RepairablePath(sel, inc, c.value)) then Err(Conflict)
      else if c.value.thread != main.thread || (!PrerequisitePath(sel.path) && c.value.rollout != main.rollout) ||
              sel.mode != main.meta.mode
      then Err(Conflict)
      else
        var added := if Forms(t.inv, sel.path) == [] then PresentForms(t.tree, sel.path, c.value) else [];
        if Forms(t.inv, sel.path) == [] && added == [] then Err(Conflict)
        else Ok(Admission(t.inv + added, if PrerequisitePath(sel.path) then t.sel else None))
  }

  /** Without an authoritative complete selection, the thread may have no other complete rollout. */
  predicate Unrivalled(t: Target, inc: Incoming, a: Admission)
    requires inc.files != []
  {
    (t.sel.None? || a.repair.Some?) ==>
      forall c | c in a.inv :: c.thread == Main(inc).thread && !PrerequisitePath(c.path) ==>
        c.rollout == Main(inc).rollout
  }

  predicate SameBytes(f: File, g: File) {
    f.sha == g.sha && f.bytes == g.bytes
  }

  /** One turn of the inner loop for a candidate of the same rollout. */
  function Weigh(t: Target, inc: Incoming, i: nat, ch: Choice, c: Candidate): Result<Choice>
    requires i < |inc.files| == |inc.payload|
  {
    var f := inc.files[i];
    if c.thread != f.thread || c.path !in t.tree then Err(Conflict)
    else
      var cmp := Compare(t.w, t.limits, inc, i, t.tree[c.path], c);
      if cmp.Err? || (!cmp.value.1 && !SameBytes(f, cmp.value.0)) then Err(Conflict)
      else
        var ch1 := if cmp.value.1 then ch.(extensions := ch.extensions + [cmp.value.0]) else ch;
        if !f.prefix && PrerequisitePath(c.path) then Ok(ch1.(promoted := true))
        else if !ch.present || (!PrerequisitePath(c.path) && PrerequisitePath(ch.path)) ||
                (t.sel.Some? && TrimSuffix(c.path, ".zst") == TrimSuffix(t.sel.value.path, ".zst"))
        then Ok(ch1.(path := c.path, present := true))
        else Ok(ch1)
  }

  function WeighAll(t: Target, inc: Incoming, i: nat, ch: Choice, cs: seq<Candidate>): Result<Choice>
    requires i < |inc.files| == |inc.payload|
    decreases |cs|
  {
    if cs == [] then Ok(ch)
    else if cs[0].rollout != inc.files[i].rollout then WeighAll(t, inc, i, ch, cs[1..])
    else
      var ch1 :- Weigh(t, inc, i, ch, cs[0]);
      WeighAll(t, inc, i, ch1, cs[1..])
  }

  function FreshChoice(inc: Incoming, i: nat, repair: Option<Selection>): Choice
    requires i < |inc.files|
  {
    Choice(inc.files[i].path, false, [], false, if inc.files[i].prefix then None else repair)
  }

  function ChooseFrom(t: Target, inc: Incoming, a: Admission, i: nat): Result<seq<Choice>>
    requires i <= |inc.files| == |inc.payload|
    decreases |inc.files| - i
  {
    if i == |inc.files| then Ok([])
    else
      var ch :- WeighAll(t, inc, i, FreshChoice(inc, i, a.repair), a.inv);
      var rest :- ChooseFrom(t, inc, a, i + 1);
      Ok([ch] + rest)
  }

  function Check(t: Target, inc: Incoming): Result<seq<Choice>>
    requires 1 <= |inc.files| == |inc.payload|
  {
    var a :- AdmitSelection(t, inc);
    if !Unrivalled(t, inc, a) then Err(Conflict) else ChooseFrom(t, inc, a, 0)
  }

  /** The choice for one incoming file: the inner loop of checkConflicts. */
  method ChooseOne(t: Target, inc: Incoming, a: Admission, i: nat) returns (r: Result<Choice>)
    requires i < |inc.files| == |inc.payload| && t.limits.Valid()
    ensures r == WeighAll(t, inc, i, FreshChoice(inc, i, a.repair), a.inv)
  {
    hide Compare;
    var incoming := inc.files[i];
    var choice := FreshChoice(inc, i, a.repair);
    ghost var goal := WeighAll(t, inc, i, choice, a.inv);
    for k := 0 to |a.inv|
      invariant goal == WeighAll(t, inc, i, choice, a.inv[k..])
    {
      assert a.inv[k..][1..] == a.inv[k + 1..];
      var c := a.inv[k];
      if c.rollout != incoming.rollout {
        continue;
      }
      if c.thread != incoming.thread || c.path !in t.tree {
        return Err(Conflict);
      }
      var cmp := CompareExisting(t.w, t.limits, inc, i, t.tree[c.path], c);
      if cmp.Err? {
        return Err(Conflict);
      }
      var (existing, extend) := cmp.value;
      var had := choice;
      if extend {
        choice := choice.(extensions := choice.extensions + [existing]);
      } else if !SameBytes(incoming, existing) {
        return Err(Conflict);
      }
      if !incoming.prefix && PrerequisitePath(c.path) {
        choice := choice.(promoted := true);
        continue;
      }
      if !had.present || (!PrerequisitePath(c.path) && PrerequisitePath(had.path)) ||
         (t.sel.Some? && TrimSuffix(c.path, ".zst") == TrimSuffix(t.sel.value.path, ".zst")) {
        choice := choice.(path := c.path, present := true);
      }
    }
    return Ok(choice);
  }

  function PrependAll(done: seq<Choice>, rest: Result<seq<Choice>>): Result<seq<Choice>> {
    if rest.Ok? then Ok(done + rest.value) else rest
  }

  lemma ChooseStep(t: Target, inc: Incoming, a: Admission, i: nat, choices: seq<Choice>)
    requires i < |inc.files| == |inc.payload|
    ensures var ch := WeighAll(t, inc, i, FreshChoice(inc, i, a.repair), a.inv);
            PrependAll(choices, ChooseFrom(t, inc, a, i)) ==
            if ch.Err? then Err(ch.error) else PrependAll(choices + [ch.value], ChooseFrom(t, inc, a, i + 1))
  {
    hide WeighAll;
    var ch := WeighAll(t, inc, i, FreshChoice(inc, i, a.repair), a.inv);
    var rest := ChooseFrom(t, inc, a, i + 1);
    if ch.Ok? && rest.Ok? {
      assert choices + ([ch.value] + rest.value) == (choices + [ch.value]) + rest.value;
    }
  }

  /** The outer loop of checkConflicts. */
  method ChooseAll(t: Target, inc: Incoming, a: Admission) returns (r: Result<seq<Choice>>)
    requires |inc.files| == |inc.payload| && t.limits.Valid()
    ensures r == ChooseFrom(t, inc, a, 0)
  {
    hide WeighAll, ChooseFrom;
    var choices: seq<Choice> := [];
    assert ChooseFrom(t, inc, a, 0).Ok? ==> [] + ChooseFrom(t, inc, a, 0).value == ChooseFrom(t, inc, a, 0).value;
    for i := 0 to |inc.files|
      invariant ChooseFrom(t, inc, a, 0) == PrependAll(choices, ChooseFrom(t, inc, a, i))
    {
      ChooseStep(t, inc, a, i, choices);
      var choice := ChooseOne(t, inc, a, i);
      if choice.Err? {
        return Err(choice.error);
      }
      choices := choices + [choice.value];
    }
    ChooseNone(t, inc, a, choices);
    return Ok(choices);
  }

  lemma ChooseNone(t: Target, inc: Incoming, a: Admission, choices: seq<Choice>)
    requires |inc.files| == |inc.payload|
    ensures PrependAll(choices, ChooseFrom(t, inc, a, |inc.files|)) == Ok(choices)
  {
    assert choices + [] == choices;
  }

  method CheckConflicts(t: Target, inc: Incoming) returns (r: Result<seq<Choice>>)
    requires 1 <= |inc.files| == |inc.payload| && t.limits.Valid()
    ensures r == Check(t, inc)
  {
    hide ChooseFrom, AdmitSelection;
    var admitted := AdmitSelection(t, inc);
    if admitted.Err? {
      return Err(admitted.error);
    }
    var a := admitted.value;
    if t.sel.None? || a.repair.Some? {
      for k := 0 to |a.inv|
        invariant forall j | 0 <= j < k ::
          a.inv[j].thread == Main(inc).thread && !PrerequisitePath(a.inv[j].path) ==>
            a.inv[j].rollout == Main(inc).rollout
      {
        var c := a.inv[k];
        if c.thread == Main(inc).thread && !PrerequisitePath(c.path) && c.rollout != Main(inc).rollout {
          assert c in a.inv;
          return Err(Conflict);
        }
      }
    }
    r := ChooseAll(t, inc, a);
  }
}
