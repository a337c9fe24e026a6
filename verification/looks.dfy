// What the check of a publication depends on while other publishers are at work: checkConflicts of
// internal/session/publish.go under the writer locks.

module Looks {
  import opened Model
  import opened Format
  import opened Rollout
  import opened Inspect
  import opened Lineage
  import opened Conflicts
  import opened Steps
  import opened Schedule
  import opened Comparison
  import opened Planning
  import Disks

  /** The threads and rollouts whose writer locks a publication takes. */
  ghost function IdsOfPlan(inc: Incoming): set<string> {
    (set f | f in inc.files :: f.thread) + (set f | f in inc.files :: f.rollout)
  }

  /** A candidate with neither a thread nor a rollout among the locked ones. */
  predicate Foreign(ids: set<string>, c: Candidate) {
    c.rollout !in ids && c.thread !in ids
  }

  predicate ForeignPath(ids: set<string>, p: string) {
    Listed(p) && Foreign(ids, IdsOf(p))
  }

  function OwnPart(cs: seq<Candidate>, ids: set<string>): (r: seq<Candidate>)
    ensures forall c :: c in r <==> c in cs && !Foreign(ids, c)
  {
    if cs == [] then []
    else if Foreign(ids, cs[0]) then OwnPart(cs[1..], ids)
    else [cs[0]] + OwnPart(cs[1..], ids)
  }

  /** What a walk of the storage roots yields. */
  predicate Walked(inv: seq<Candidate>) {
    forall c | c in inv :: Listed(c.path) && ParseName(c.path) == Some(c)
  }

  /** Two looks at a destination that differ in files with foreign ids only. */
  ghost predicate AlikeFor(ids: set<string>, t: Target, t1: Target) {
    t1.w == t.w && t1.limits == t.limits && t1.sel == t.sel && OwnPart(t1.inv, ids) == OwnPart(t.inv, ids) &&
    forall p | !ForeignPath(ids, p) :: Disks.Version(t1.tree, p) == Disks.Version(t.tree, p)
  }

  lemma {:induction false} OwnPartAppend(a: seq<Candidate>, b: seq<Candidate>, ids: set<string>)
    ensures OwnPart(a + b, ids) == OwnPart(a, ids) + OwnPart(b, ids)
  {
    hide Foreign;
    if a == [] {
      assert a + b == b;
    } else {
      assert (a + b)[1..] == a[1..] + b;
      OwnPartAppend(a[1..], b, ids);
    }
  }

  lemma {:induction false} OwnPartAll(cs: seq<Candidate>, ids: set<string>)
    requires forall c | c in cs :: !Foreign(ids, c)
    ensures OwnPart(cs, ids) == cs
  {
    hide Foreign;
    if cs != [] {
      OwnPartAll(cs[1..], ids);
    }
  }

  // ---- the selected row ----

  /** The forms of a path that names a thread of the plan are the plan's. */
  lemma FormOwn(ids: set<string>, path: string, c: Candidate, p: string)
    requires SelectablePath(path) && TrimSuffix(p, ".zst") == TrimSuffix(path, ".zst")
    requires ParseName(path).Some? ==> ParseName(path) == Some(c)
    requires c.thread in ids
    ensures !ForeignPath(ids, p) && (ParseName(p).Some? ==> ParseName(path).Some?)
  {
    hide ParseName, ManagedPath, ValidRelative, TrimSuffix;
    SelectableForms(path);
    FormsAlike(p, path);
  }

  lemma FormsLocal(ids: set<string>, a: seq<Candidate>, b: seq<Candidate>, path: string, c: Candidate)
    requires Walked(a) && OwnPart(a, ids) == OwnPart(b, ids) && SelectablePath(path) && c.thread in ids
    requires ParseName(path).Some? ==> ParseName(path) == Some(c)
    ensures Forms(a, path) != [] ==> Forms(b, path) != []
  {
    hide ParseName, ManagedPath, ValidRelative, TrimSuffix, Filter, SelectablePath;
    if Forms(a, path) != [] {
      var d := Forms(a, path)[0];
      assert d in Forms(a, path);
      FormOwn(ids, path, c, d.path);
      assert d in OwnPart(a, ids);
      assert d in Forms(b, path);
    }
  }

  lemma PresentLocal(ids: set<string>, t: Target, t1: Target, path: string, c: Candidate)
    requires AlikeFor(ids, t, t1) && SelectablePath(path) && c.thread in ids
    requires ParseName(path).Some? ==> ParseName(path) == Some(c)
    ensures PresentForms(t1.tree, path, c) == PresentForms(t.tree, path, c)
    ensures forall d | d in PresentForms(t.tree, path, c) :: !Foreign(ids, d) && !ForeignPath(ids, d.path)
  {
    hide ParseName, ManagedPath, ValidRelative, SelectablePath;
    var plain := TrimSuffix(path, ".zst");
    SelectableForms(path);
    FormsOf(path, plain);
    FormsOf(path, plain + ".zst");
    hide TrimSuffix, ForeignPath, OwnPart;
    FormOwn(ids, path, c, plain);
    FormOwn(ids, path, c, plain + ".zst");
    assert Disks.Version(t1.tree, plain) == Disks.Version(t.tree, plain);
    assert Disks.Version(t1.tree, plain + ".zst") == Disks.Version(t.tree, plain + ".zst");
  }

  /** What the row contributes is the same, and beyond the two walks the same forms are weighed. */
  lemma AdmissionLocal(ids: set<string>, t: Target, t1: Target, inc: Incoming)
    requires AlikeFor(ids, t, t1) && Walked(t.inv) && Walked(t1.inv) && inc.files != [] && Main(inc).thread in ids
    ensures AdmitSelection(t1, inc).Ok? == AdmitSelection(t, inc).Ok?
    ensures AdmitSelection(t, inc).Err? ==> AdmitSelection(t1, inc) == AdmitSelection(t, inc)
    ensures AdmitSelection(t, inc).Ok? ==>
              var a, a1 := AdmissionOf(t, inc), AdmissionOf(t1, inc);
              a1.repair == a.repair && OwnPart(a1.inv, ids) == OwnPart(a.inv, ids) &&
              forall c | c in OwnPart(a.inv, ids) :: !ForeignPath(ids, c.path)
  {
    hide ParseName, ManagedPath, PrerequisitePath, ValidRelative, RepairablePath, TrimSuffix, SelectablePath, Filter,
         PresentForms, OwnPart;
    if t.sel.Some? && SelectablePath(t.sel.value.path) {
      var path := t.sel.value.path;
      var some := SelectedCandidate(t.sel.value, Main(inc));
      if some.Some? && some.value.thread == Main(inc).thread {
        var c := some.value;
        FormsLocal(ids, t.inv, t1.inv, path, c);
        FormsLocal(ids, t1.inv, t.inv, path, c);
        PresentLocal(ids, t, t1, path, c);
        var added := if Forms(t.inv, path) == [] then PresentForms(t.tree, path, c) else [];
        OwnPartAppend(t.inv, added, ids);
        OwnPartAppend(t1.inv, added, ids);
      }
    }
  }

  lemma UnrivalledLocal(ids: set<string>, t: Target, t1: Target, inc: Incoming, a: Admission, a1: Admission)
    requires inc.files != [] && Main(inc).thread in ids && t1.sel == t.sel && a1.repair == a.repair
    requires OwnPart(a1.inv, ids) == OwnPart(a.inv, ids)
    ensures Unrivalled(t, inc, a) ==> Unrivalled(t1, inc, a1)
  {
    hide PrerequisitePath;
    if Unrivalled(t, inc, a) {
      forall c | c in a1.inv && c.thread == Main(inc).thread && !PrerequisitePath(c.path)
        ensures c in a.inv
      {
        assert c in OwnPart(a1.inv, ids);
      }
    }
  }

  // ---- the representations ----

  /** Weighing passes over candidates of other rollouts. */
  lemma {:induction false} WeighOwn(ids: set<string>, t: Target, inc: Incoming, i: nat, ch: Choice, cs: seq<Candidate>)
    requires i < |inc.files| == |inc.payload| && inc.files[i].rollout in ids
    ensures WeighAll(t, inc, i, ch, cs) == WeighAll(t, inc, i, ch, OwnPart(cs, ids))
    decreases |cs|
  {
    hide Weigh;
    if cs != [] {
      if cs[0].rollout == inc.files[i].rollout {
        assert ([cs[0]] + OwnPart(cs[1..], ids))[1..] == OwnPart(cs[1..], ids);
        if Weigh(t, inc, i, ch, cs[0]).Ok? {
          WeighOwn(ids, t, inc, i, Weigh(t, inc, i, ch, cs[0]).value, cs[1..]);
        }
      } else {
        WeighOwn(ids, t, inc, i, ch, cs[1..]);
        if !Foreign(ids, cs[0]) {
          assert ([cs[0]] + OwnPart(cs[1..], ids))[1..] == OwnPart(cs[1..], ids);
        }
      }
    }
  }

  lemma {:induction false} WeighSame(t: Target, t1: Target, inc: Incoming, i: nat, ch: Choice, cs: seq<Candidate>)
    requires i < |inc.files| == |inc.payload| && t1.w == t.w && t1.limits == t.limits && t1.sel == t.sel
    requires forall c | c in cs :: Disks.Version(t1.tree, c.path) == Disks.Version(t.tree, c.path)
    ensures WeighAll(t1, inc, i, ch, cs) == WeighAll(t, inc, i, ch, cs)
    decreases |cs|
  {
    hide Compare, PrerequisitePath, TrimSuffix;
    if cs != [] {
      assert cs[0] in cs;
      assert Weigh(t1, inc, i, ch, cs[0]) == Weigh(t, inc, i, ch, cs[0]);
      if cs[0].rollout != inc.files[i].rollout {
        WeighSame(t, t1, inc, i, ch, cs[1..]);
      } else if Weigh(t, inc, i, ch, cs[0]).Ok? {
        WeighSame(t, t1, inc, i, Weigh(t, inc, i, ch, cs[0]).value, cs[1..]);
      }
    }
  }

  lemma {:induction false} ChooseLocal(ids: set<string>, t: Target, t1: Target, inc: Incoming, a: Admission,
                                       a1: Admission, i: nat)
    requires i <= |inc.files| == |inc.payload| && IdsOfPlan(inc) <= ids && AlikeFor(ids, t, t1)
    requires a1.repair == a.repair && OwnPart(a1.inv, ids) == OwnPart(a.inv, ids)
    requires forall c | c in OwnPart(a.inv, ids) :: !ForeignPath(ids, c.path)
    ensures ChooseFrom(t1, inc, a1, i) == ChooseFrom(t, inc, a, i)
    decreases |inc.files| - i
  {
    hide WeighAll, ForeignPath, OwnPart;
    if i < |inc.files| {
      assert inc.files[i] in inc.files;
      var ch := FreshChoice(inc, i, a.repair);
      WeighOwn(ids, t, inc, i, ch, a.inv);
      WeighOwn(ids, t1, inc, i, ch, a1.inv);
      WeighSame(t, t1, inc, i, ch, OwnPart(a.inv, ids));
      ChooseLocal(ids, t, t1, inc, a, a1, i + 1);
    }
  }

  /** The check, whatever it answers, depends on files with the ids of its plan only: on which of them are there, in
      which order the walk meets them, and on what each holds. */
  lemma CheckLocal(ids: set<string>, t: Target, t1: Target, inc: Incoming)
    requires 1 <= |inc.files| == |inc.payload| && IdsOfPlan(inc) <= ids && AlikeFor(ids, t, t1)
    requires Walked(t.inv) && Walked(t1.inv)
    ensures Check(t1, inc) == Check(t, inc)
  {
    hide AdmitSelection, Unrivalled, ChooseFrom, OwnPart, ForeignPath, Walked;
    assert Main(inc) in inc.files;
    AdmissionLocal(ids, t, t1, inc);
    if AdmitSelection(t, inc).Ok? {
      var a, a1 := AdmissionOf(t, inc), AdmissionOf(t1, inc);
      UnrivalledLocal(ids, t, t1, inc, a, a1);
      UnrivalledLocal(ids, t1, t, inc, a1, a);
      ChooseLocal(ids, t, t1, inc, a, a1, 0);
    }
  }

  // ---- one moment for a look that took several ----

  predicate NoRepeat(cs: seq<Candidate>) {
    forall i, j | 0 <= i < j < |cs| :: cs[i] != cs[j]
  }

  lemma NoRepeatBoth(a: seq<Candidate>, b: seq<Candidate>)
    requires NoRepeat(a) && NoRepeat(b) && forall c | c in a :: c !in b
    ensures NoRepeat(a + b)
  {
    forall i, j | 0 <= i < j < |a + b|
      ensures (a + b)[i] != (a + b)[j]
    {
      if i < |a| <= j {
        assert (a + b)[i] in a && (a + b)[j] in b;
      }
    }
  }

  lemma {:induction false} OwnPartNoRepeat(cs: seq<Candidate>, ids: set<string>)
    requires NoRepeat(cs)
    ensures NoRepeat(OwnPart(cs, ids))
  {
    hide Foreign;
    if cs != [] {
      OwnPartNoRepeat(cs[1..], ids);
      assert cs[0] !in cs[1..];
      NoRepeatBoth([cs[0]], OwnPart(cs[1..], ids));
    }
  }

  lemma {:induction false} OwnPartNone(cs: seq<Candidate>, ids: set<string>)
    requires forall c | c in cs :: Foreign(ids, c)
    ensures OwnPart(cs, ids) == []
  {
    hide Foreign;
    if cs != [] {
      OwnPartNone(cs[1..], ids);
    }
  }

  ghost function ForeignIn(tree: Tree, ids: set<string>): set<Candidate> {
    set p | p in tree && ForeignPath(ids, p) :: IdsOf(p)
  }

  /** An inventory of the tree with the own part of the walk, in the walk's order. */
  lemma Merged(tree: Tree, ids: set<string>, inv: seq<Candidate>) returns (r: seq<Candidate>)
    requires Walked(inv) && NoRepeat(inv)
    requires forall c | c in inv && !Foreign(ids, c) :: c.path in tree
    requires forall p | p in tree && Listed(p) && !ForeignPath(ids, p) :: IdsOf(p) in inv
    ensures InventoryOf(tree, r) && OwnPart(r, ids) == OwnPart(inv, ids)
  {
    hide ManagedPath, ParseName, Foreign, OwnPart;
    var own, others := OwnPart(inv, ids), ListOf(ForeignIn(tree, ids));
    r := own + others;
    OwnPartNoRepeat(inv, ids);
    forall c | c in others
      ensures Foreign(ids, c) && c.path in tree && Listed(c.path) && ParseName(c.path) == Some(c)
    {
      var p :| p in tree && ForeignPath(ids, p) && c == IdsOf(p);
      ParsedPath(p);
    }
    OwnPartAppend(own, others, ids);
    OwnPartAll(own, ids);
    OwnPartNone(others, ids);
    NoRepeatBoth(own, others);
    forall p | p in tree && Listed(p)
      ensures ParseName(p).value in r
    {
      if ForeignPath(ids, p) {
        assert IdsOf(p) in ForeignIn(tree, ids);
      } else {
        PathOfIds(p);
      }
    }
  }
}
