// Publication as it runs: publish of internal/session/publish.go with preparePrefix and publishPrefix of
// internal/session/extend.go.

module Publisher {
  import opened Model
  import opened Format
  import opened Rollout
  import opened Inspect
  import opened Lineage
  import opened Conflicts
  import opened Steps
  import opened Schedule
  import opened Comparison
  import opened Planning
  import opened Publication
  import opened Retry
  import opened Convergence
  import opened Slots
  import StateDb

  /** What may happen around one change of live storage: nothing, a refusal or cancellation before it, or a failed
      directory sync after it. */
  datatype Trouble = Fine | Before | After

  /** Everything outside the program's control: whether staging the j-th longer copy fails, what happens around the
      k-th live change, whether the database file is still the same at each look, and how the database answers the
      commit. */
  datatype Outside =
    Outside(spoiled: nat -> bool, around: nat -> Trouble, same: nat -> bool, commit: StateDb.Commit)

  ghost predicate Undisturbed(o: Outside) {
    (forall j :: !o.spoiled(j)) && (forall k :: o.around(k) == Fine) && (forall k :: o.same(k)) &&
    o.commit == StateDb.Confirmed
  }

  datatype InstalledFile =
    InstalledFile(path: string, rollout: string, prefix: bool, created: bool, extended: bool, promoted: bool)

  datatype Report =
    Report(thread: string, mainPath: string, archived: bool, files: seq<InstalledFile>, meta: Metadata, repaired: bool)

  function Installed(f: File, ch: Choice): InstalledFile {
    InstalledFile(ch.path, f.rollout, f.prefix, !ch.present, f.prefix && ch.extensions != [],
                  ch.promoted && (!ch.present || ch.extensions != [] || ch.repair.Some?))
  }

  function InstalledFiles(inc: Incoming, choices: seq<Choice>): (r: seq<InstalledFile>)
    requires |choices| == |inc.files|
    ensures |r| == |choices| && forall i | 0 <= i < |r| :: r[i] == Installed(inc.files[i], choices[i])
  {
    seq(|choices|, i requires 0 <= i < |choices| => Installed(inc.files[i], choices[i]))
  }

  // ---- live storage ----

  class Storage {
    var tree: Tree

    constructor (tree: Tree)
      ensures this.tree == tree
    {
      this.tree := tree;
    }

    /** inventory: every listed path once, in some order. */
    method Inventory() returns (inv: seq<Candidate>)
      ensures InventoryOf(tree, inv)
    {
      hide ParseName, ManagedPath;
      inv := [];
      var left := tree.Keys;
      while left != {}
        invariant left <= tree.Keys
        invariant forall c | c in inv ::
                  c.path in tree && c.path !in left && Listed(c.path) && ParseName(c.path) == Some(c)
        invariant forall p | p in tree && Listed(p) && p !in left :: ParseName(p).value in inv
        invariant forall i, j | 0 <= i < j < |inv| :: inv[i] != inv[j]
        decreases |left|
      {
        var p :| p in left;
        left := left - {p};
        if Listed(p) {
          ParsedPath(p);
          inv := inv + [ParseName(p).value];
        }
      }
    }

    /** publishPrefix: rename over the managed prefix, if it is still the validated file. */
    method PublishPrefix(path: string, was: Node, node: Node, trouble: Trouble) returns (r: Result<()>, changed: nat)
      modifies this
      ensures changed == (if Enabled(old(tree), Extend(path, was, node)) && trouble != Before then 1 else 0)
      ensures tree == if changed == 1 then ApplyStep(old(tree), Extend(path, was, node)) else old(tree)
      ensures r.Ok? <==> Enabled(old(tree), Extend(path, was, node)) && trouble == Fine
    {
      if path !in tree {
        return Err(NotFound), 0;
      }
      if !SameStored(was, tree[path]) {
        return Err(Conflict), 0;
      }
      if trouble == Before {
        return Err(Interrupted), 0;
      }
      tree := tree[path := node];
      return if trouble == After then Err(Interrupted) else Ok(()), 1;
    }

    /** The exclusive link of a staged file. */
    method Link(path: string, node: Node, trouble: Trouble) returns (r: Result<()>, installed: nat)
      modifies this
      ensures installed == (if Enabled(old(tree), Install(path, node)) && trouble != Before then 1 else 0)
      ensures tree == if installed == 1 then ApplyStep(old(tree), Install(path, node)) else old(tree)
      ensures r.Ok? <==> Enabled(old(tree), Install(path, node)) && trouble == Fine
    {
      if trouble == Before {
        return Err(Interrupted), 0;
      }
      if path in tree {
        return Err(Exists), 0;
      }
      tree := tree[path := node];
      return if trouble == After then Err(Interrupted) else Ok(()), 1;
    }
  }

  // ---- the private stage ----

  predicate Received(inc: Incoming, i: nat, nodes: map<string, Node>)
    requires i < |inc.files| == |inc.payload|
  {
    inc.files[i].source == PayloadSlot(i) && PayloadSlot(i) in nodes &&
    nodes[PayloadSlot(i)].raw == inc.payload[i] && nodes[PayloadSlot(i)].mtime == inc.files[i].modified
  }

  predicate LongerCopy(w: World, inc: Incoming, i: nat, extension: File, nodes: map<string, Node>, slot: string)
    requires i < |inc.files| == |inc.payload|
  {
    slot in nodes && nodes[slot].raw == Encode(w, extension.source, inc.payload[i]) &&
      nodes[slot].mtime == inc.files[i].modified
  }

  predicate Extendable(inc: Incoming, i: nat, extension: File)
    requires i < |inc.files|
  {
    inc.files[i].meta.mode == "paginated" && PrerequisitePath(extension.source)
  }

  /** The received files lie in their slots, and no later slot for a longer copy is taken. */
  ghost predicate Staged(inc: Incoming, slots: seq<string>, nodes: map<string, Node>) {
    |inc.files| == |inc.payload| &&
    (forall i | 0 <= i < |inc.files| :: Received(inc, i, nodes)) &&
    (forall k: nat | k >= |slots| :: ExtensionSlot(k) !in nodes)
  }

  predicate AllExtendable(inc: Incoming, choices: seq<Choice>)
    requires |choices| == |inc.files|
  {
    forall i, f | 0 <= i < |choices| && f in choices[i].extensions :: Extendable(inc, i, f)
  }

  class Staging {
    var slots: seq<string>
    var nodes: map<string, Node>
    var nextInode: nat

    constructor (slots: seq<string>, nodes: map<string, Node>, nextInode: nat)
      ensures this.slots == slots && this.nodes == nodes && this.nextInode == nextInode
    {
      this.slots, this.nodes, this.nextInode := slots, nodes, nextInode;
    }

    ghost predicate Holds(inc: Incoming)
      reads this
    {
      Staged(inc, slots, nodes)
    }

    /** preparePrefix: a complete longer copy of one managed prefix, in a slot of its own. */
    method PreparePrefix(w: World, limits: Limits, inc: Incoming, i: nat, extension: File, spoiled: bool)
      returns (r: Result<string>)
      requires i < |inc.files| && Holds(inc) && ValidIncoming(w, limits, inc)
      modifies this
      ensures Holds(inc)
      ensures forall name | name in old(nodes) :: name in nodes && nodes[name] == old(nodes)[name]
      ensures r.Ok? <==> Extendable(inc, i, extension) && !spoiled
      ensures r.Ok? ==> r.value !in old(nodes) && LongerCopy(w, inc, i, extension, nodes, r.value)
    {
      hide Encode, Describes, ParseName, ManagedPath, PrerequisitePath, Joined, Distinct, Padded, ExtensionSlot,
           PayloadSlot;
      if inc.files[i].meta.mode != "paginated" || !PrerequisitePath(extension.source) {
        return Err(NotExtendable);
      }
      assert Received(inc, i, nodes);
      ValidAt(w, limits, inc, i);
      var slot := ExtensionSlot(|slots|);
      // copyPayload of stream.go, out of the stage
      var staged := Decoded(w, inc.files[i].source, nodes[inc.files[i].source].raw);
      assert staged == Stream(inc.payload[i], true);
      var content := staged.data[..inc.files[i].bytes];
      assert content == inc.payload[i];
      if spoiled || w.hash(content) != inc.files[i].sha ||
         (!inc.files[i].prefix && (|staged.data| != inc.files[i].bytes || !staged.clean)) {
        SlotAdded(inc, slots, nodes, Node(nextInode, [], 0));
        nodes := nodes[slot := Node(nextInode, [], 0)];
        slots, nextInode := slots + [slot], nextInode + 1;
        return Err(SourceChanged);
      }
      SlotAdded(inc, slots, nodes, Node(nextInode, Encode(w, extension.source, content), inc.files[i].modified));
      nodes := nodes[slot := Node(nextInode, Encode(w, extension.source, content), inc.files[i].modified)];
      slots, nextInode := slots + [slot], nextInode + 1;
      return Ok(slot);
    }

    /** The longer copies of one incoming file. */
    method PrepareFile(w: World, limits: Limits, inc: Incoming, i: nat, extensions: seq<File>, o: Outside, from: nat)
      returns (r: Result<seq<string>>)
      requires i < |inc.files| && Holds(inc) && ValidIncoming(w, limits, inc)
      modifies this
      ensures Holds(inc)
      ensures forall name | name in old(nodes) :: name in nodes && nodes[name] == old(nodes)[name]
      ensures r.Ok? ==> Copied(w, inc, i, extensions, nodes, r.value)
      ensures (forall f | f in extensions :: Extendable(inc, i, f)) && (forall k :: !o.spoiled(k)) ==> r.Ok?
    {
      hide ValidIncoming, LongerCopy, Received, Extendable, ExtensionSlot;
      var prepared: seq<string> := [];
      for j := 0 to |extensions|
        invariant Holds(inc) && |prepared| == j
        invariant forall name | name in old(nodes) :: name in nodes && nodes[name] == old(nodes)[name]
        invariant forall k | 0 <= k < j :: LongerCopy(w, inc, i, extensions[k], nodes, prepared[k])
      {
        ghost var before := nodes;
        var slot := PreparePrefix(w, limits, inc, i, extensions[j], o.spoiled(from + j));
        if slot.Err? {
          assert extensions[j] in extensions;
          return Err(slot.error);
        }
        forall k | 0 <= k < j
          ensures LongerCopy(w, inc, i, extensions[k], nodes, prepared[k])
        {
          CopyKept(w, inc, i, extensions[k], before, nodes, prepared[k]);
        }
        prepared := prepared + [slot.value];
      }
      return Ok(prepared);
    }

    /** The longer copies of every prefix that must grow, before anything live is touched. */
    method PrepareAll(w: World, limits: Limits, inc: Incoming, choices: seq<Choice>, o: Outside)
      returns (r: Result<seq<seq<string>>>)
      requires Holds(inc) && ValidIncoming(w, limits, inc) && |choices| == |inc.files|
      modifies this
      ensures Holds(inc)
      ensures r.Ok? ==> AllCopied(w, inc, choices, nodes, r.value)
      ensures AllExtendable(inc, choices) && (forall k :: !o.spoiled(k)) ==> r.Ok?
    {
      hide ValidIncoming, Copied, Received, Extendable, ExtensionSlot;
      var prepared: seq<seq<string>> := [];
      var count: nat := 0;
      for i := 0 to |choices|
        invariant Holds(inc) && |prepared| == i
        invariant forall k | 0 <= k < i :: Copied(w, inc, k, choices[k].extensions, nodes, prepared[k])
      {
        ghost var before := nodes;
        var copies := PrepareFile(w, limits, inc, i, choices[i].extensions, o, count);
        if copies.Err? {
          return Err(copies.error);
        }
        forall k | 0 <= k < i
          ensures Copied(w, inc, k, choices[k].extensions, nodes, prepared[k])
        {
          CopiesKept(w, inc, k, choices[k].extensions, before, nodes, prepared[k]);
        }
        prepared, count := prepared + [copies.value], count + |choices[i].extensions|;
      }
      return Ok(prepared);
    }
  }

  predicate Copied(w: World, inc: Incoming, i: nat, extensions: seq<File>, nodes: map<string, Node>,
                   prepared: seq<string>)
    requires i < |inc.files| == |inc.payload|
  {
    |prepared| == |extensions| &&
      forall j | 0 <= j < |extensions| :: LongerCopy(w, inc, i, extensions[j], nodes, prepared[j])
  }

  predicate AllCopied(w: World, inc: Incoming, choices: seq<Choice>, nodes: map<string, Node>,
                      prepared: seq<seq<string>>)
    requires |choices| == |inc.files| == |inc.payload|
  {
    |prepared| == |choices| &&
      forall i | 0 <= i < |choices| :: Copied(w, inc, i, choices[i].extensions, nodes, prepared[i])
  }

  lemma CopyKept(w: World, inc: Incoming, i: nat, f: File, a: map<string, Node>, b: map<string, Node>, slot: string)
    requires i < |inc.files| == |inc.payload| && LongerCopy(w, inc, i, f, a, slot)
    requires forall name | name in a :: name in b && b[name] == a[name]
    ensures LongerCopy(w, inc, i, f, b, slot)
  {
    hide Encode;
  }

  lemma CopiesKept(w: World, inc: Incoming, i: nat, fs: seq<File>, a: map<string, Node>, b: map<string, Node>,
                   p: seq<string>)
    requires i < |inc.files| == |inc.payload| && Copied(w, inc, i, fs, a, p)
    requires forall name | name in a :: name in b && b[name] == a[name]
    ensures Copied(w, inc, i, fs, b, p)
  {
    hide Encode;
  }

  /** A new slot leaves the received files and the later slots alone. */
  lemma SlotAdded(inc: Incoming, slots: seq<string>, nodes: map<string, Node>, node: Node)
    requires Staged(inc, slots, nodes)
    ensures var slot := ExtensionSlot(|slots|);
            slot !in nodes && Staged(inc, slots + [slot], nodes[slot := node])
  {
    hide ExtensionSlot, PayloadSlot;
    forall i: nat
      ensures PayloadSlot(i) != ExtensionSlot(|slots|)
      ensures i > |slots| ==> ExtensionSlot(i) != ExtensionSlot(|slots|)
    {
      SlotsDistinct(i, |slots|);
    }
    var slot, after := ExtensionSlot(|slots|), nodes[ExtensionSlot(|slots|) := node];
    forall i | 0 <= i < |inc.files|
      ensures Received(inc, i, after)
    {
      assert Received(inc, i, nodes);
    }
    assert |slots + [slot]| == |slots| + 1;
    forall k: nat | k >= |slots + [slot]|
      ensures ExtensionSlot(k) !in after
    {
    }
  }

  // ---- the apply loop ----

  function StageOf(inc: Incoming, nodes: map<string, Node>, prepared: seq<seq<string>>): Stage
    requires forall i | 0 <= i < |inc.files| :: PayloadSlot(i) in nodes
    requires forall i, j | 0 <= i < |prepared| && 0 <= j < |prepared[i]| :: prepared[i][j] in nodes
  {
    Stage(seq(|inc.files|, i requires 0 <= i < |inc.files| => nodes[PayloadSlot(i)]),
          seq(|prepared|, i requires 0 <= i < |prepared| =>
            seq(|prepared[i]|, j requires 0 <= j < |prepared[i]| => nodes[prepared[i][j]])))
  }

  lemma CopiesThere(w: World, inc: Incoming, choices: seq<Choice>, nodes: map<string, Node>, prepared: seq<seq<string>>)
    requires |choices| == |inc.files| == |inc.payload| && AllCopied(w, inc, choices, nodes, prepared)
    ensures forall i, j | 0 <= i < |prepared| && 0 <= j < |prepared[i]| :: prepared[i][j] in nodes
  {
    hide Encode;
    forall i, j | 0 <= i < |prepared| && 0 <= j < |prepared[i]|
      ensures prepared[i][j] in nodes
    {
      assert Copied(w, inc, i, choices[i].extensions, nodes, prepared[i]);
      assert LongerCopy(w, inc, i, choices[i].extensions[j], nodes, prepared[i][j]);
    }
  }

  lemma ReceivedThere(inc: Incoming, slots: seq<string>, nodes: map<string, Node>)
    requires Staged(inc, slots, nodes)
    ensures forall i | 0 <= i < |inc.files| :: PayloadSlot(i) in nodes
  {
    hide PayloadSlot;
    forall i | 0 <= i < |inc.files|
      ensures PayloadSlot(i) in nodes
    {
      assert Received(inc, i, nodes);
    }
  }

  /** What has been staged is what the steps publish. */
  lemma StagedFor(w: World, inc: Incoming, choices: seq<Choice>, slots: seq<string>, nodes: map<string, Node>,
                  prepared: seq<seq<string>>)
    requires Staged(inc, slots, nodes) && |choices| == |inc.files| && AllCopied(w, inc, choices, nodes, prepared)
    requires forall i | 0 <= i < |inc.files| :: PayloadSlot(i) in nodes
    requires forall i, j | 0 <= i < |prepared| && 0 <= j < |prepared[i]| :: prepared[i][j] in nodes
    ensures StageFor(w, inc, choices, StageOf(inc, nodes, prepared))
  {
    hide Encode, PayloadSlot;
    var stage := StageOf(inc, nodes, prepared);
    forall i | 0 <= i < |inc.files|
      ensures stage.staged[i].raw == inc.payload[i] && stage.staged[i].mtime == inc.files[i].modified
      ensures Prepared(w, inc.files[i], inc.payload[i], choices[i].extensions, stage.prepared[i])
    {
      assert Received(inc, i, nodes);
      assert Copied(w, inc, i, choices[i].extensions, nodes, prepared[i]);
      forall j | 0 <= j < |choices[i].extensions|
        ensures stage.prepared[i][j].raw == Encode(w, choices[i].extensions[j].source, inc.payload[i])
        ensures stage.prepared[i][j].mtime == inc.files[i].modified
      {
        assert LongerCopy(w, inc, i, choices[i].extensions[j], nodes, prepared[i][j]);
      }
    }
  }

  /** The m-th step of the i-th file in the whole sequence. */
  lemma StepAt(w: World, inc: Incoming, choices: seq<Choice>, stage: Stage, i: nat, m: nat)
    requires StageFor(w, inc, choices, stage) && i < |choices| && m < |StepsFor(w, inc, choices, stage, i)|
    ensures |StepsUpTo(w, inc, choices, stage, i)| + m < |StepsOf(w, inc, choices, stage)|
    ensures StepsOf(w, inc, choices, stage)[|StepsUpTo(w, inc, choices, stage, i)| + m] == StepsFor(w, inc, choices,
            stage, i)[m]
    ensures |StepsUpTo(w, inc, choices, stage, i + 1)| ==
            |StepsUpTo(w, inc, choices, stage, i)| + |StepsFor(w, inc, choices, stage, i)|
  {
    hide StageFor, StepsFor;
    StepsUpToPrefix(w, inc, choices, stage, i + 1, |choices|);
  }

  lemma FileSteps(w: World, inc: Incoming, choices: seq<Choice>, stage: Stage, i: nat)
    requires StageFor(w, inc, choices, stage) && i < |choices|
    ensures |choices| == |inc.files| == |stage.prepared| == |stage.staged| &&
            |choices[i].extensions| == |stage.prepared[i]|
    ensures |StepsFor(w, inc, choices, stage, i)| == |choices[i].extensions| + (if choices[i].present then 0 else 1)
    ensures forall j | 0 <= j < |choices[i].extensions| ::
              StepsFor(w, inc, choices, stage, i)[j] ==
              Extend(choices[i].extensions[j].source, choices[i].extensions[j].stored, stage.prepared[i][j])
    ensures !choices[i].present ==>
              StepsFor(w, inc, choices, stage, i)[|choices[i].extensions|] == Install(choices[i].path, stage.staged[i])
    ensures |StepsUpTo(w, inc, choices, stage, i + 1)| ==
            |StepsUpTo(w, inc, choices, stage, i)| + |StepsFor(w, inc, choices, stage, i)|
    ensures |StepsUpTo(w, inc, choices, stage, i + 1)| <= |StepsOf(w, inc, choices, stage)|
  {
    hide Encode;
    assert Prepared(w, inc.files[i], inc.payload[i], choices[i].extensions, stage.prepared[i]);
    StepsUpToPrefix(w, inc, choices, stage, i + 1, |choices|);
  }

  /** Each step finds the storage as its check did. */
  ghost predicate AllEnabled(tree: Tree, steps: seq<Step>) {
    forall k | 0 <= k < |steps| :: Enabled(Apply(tree, steps[..k]), steps[k])
  }

  lemma ApplyNext(tree: Tree, steps: seq<Step>, k: nat)
    requires k < |steps|
    ensures Apply(tree, steps[..k + 1]) == ApplyStep(Apply(tree, steps[..k]), steps[k])
  {
    assert steps[..k + 1][..k] == steps[..k];
  }

  /** One turn of the apply loop: the managed prefixes of one file, then the file itself. */
  method InstallOne(home: Storage, w: World, inc: Incoming, choices: seq<Choice>, stage: Stage, i: nat, o: Outside,
                    ghost start: Tree, from: nat)
    returns (r: Result<InstalledFile>, installed: nat, extended: nat, made: nat)
    requires StageFor(w, inc, choices, stage) && i < |choices|
    requires from == |StepsUpTo(w, inc, choices, stage, i)| <= |StepsOf(w, inc, choices, stage)|
    requires home.tree == Apply(start, StepsOf(w, inc, choices, stage)[..from])
    modifies home
    ensures from <= made <= |StepsOf(w, inc, choices, stage)|
    ensures home.tree == Apply(start, StepsOf(w, inc, choices, stage)[..made])
    ensures installed + extended <= made - from <= installed + extended + 1
    ensures r.Ok? ==> r.value == Installed(inc.files[i], choices[i]) && made - from == installed + extended
    ensures r.Ok? ==> made == |StepsUpTo(w, inc, choices, stage, i + 1)|
    ensures AllEnabled(start, StepsOf(w, inc, choices, stage)) && (forall k :: o.around(k) == Fine) ==> r.Ok?
  {
    hide StageFor, StepsFor, StepsUpTo, StepsOf, Apply, Enabled, ApplyStep;
    installed, extended, made := 0, 0, from;
    FileSteps(w, inc, choices, stage, i);
    ghost var steps, own := StepsOf(w, inc, choices, stage), StepsFor(w, inc, choices, stage, i);
    var chosen := choices[i];
    for j := 0 to |chosen.extensions|
      invariant extended == j && made == from + j <= |steps|
      invariant home.tree == Apply(start, steps[..made])
    {
      var extension := chosen.extensions[j];
      StepAt(w, inc, choices, stage, i, j);
      ApplyNext(start, steps, made);
      var grown, changed := home.PublishPrefix(extension.source, extension.stored, stage.prepared[i][j],
        o.around(made));
      made := made + changed;
      if grown.Err? {
        return Err(grown.error), installed, extended, made;
      }
      extended := extended + 1;
    }
    if !chosen.present {
      StepAt(w, inc, choices, stage, i, |chosen.extensions|);
      ApplyNext(start, steps, made);
      var linked, count := home.Link(chosen.path, stage.staged[i], o.around(made));
      installed, made := count, made + count;
      if linked.Err? {
        return Err(linked.error), installed, extended, made;
      }
    }
    return Ok(Installed(inc.files[i], chosen)), installed, extended, made;
  }

  function Repair(choices: seq<Choice>): Option<Selection>
    requires choices != []
  {
    choices[|choices| - 1].repair
  }

  /** The report of a complete publication. */
  function ReportOf(inc: Incoming, choices: seq<Choice>): Report
    requires inc.files != [] && |choices| == |inc.files|
  {
    var path := choices[|choices| - 1].path;
    Report(inc.thread, path, HasPrefix(path, "archived_sessions/"), InstalledFiles(inc, choices), Main(inc).meta,
           Repair(choices).Some?)
  }

  /** All files in dependency order. */
  method InstallAll(home: Storage, w: World, inc: Incoming, choices: seq<Choice>, stage: Stage, o: Outside)
    returns (r: Result<seq<InstalledFile>>, installed: nat, extended: nat, made: nat)
    requires StageFor(w, inc, choices, stage)
    modifies home
    ensures |choices| == |inc.files| && made <= |StepsOf(w, inc, choices, stage)|
    ensures home.tree == Apply(old(home.tree), StepsOf(w, inc, choices, stage)[..made])
    ensures installed + extended <= made <= installed + extended + 1
    ensures r.Ok? ==>
              r.value == InstalledFiles(inc, choices) &&
                made == installed + extended == |StepsOf(w, inc, choices, stage)|
    ensures AllEnabled(old(home.tree), StepsOf(w, inc, choices, stage)) && (forall k :: o.around(k) == Fine) ==> r.Ok?
  {
    hide StageFor, StepsFor, StepsUpTo, StepsOf, Apply, AllEnabled, Installed;
    StageSizes(w, inc, choices, stage);
    AllSteps(w, inc, choices, stage);
    ghost var start, steps := home.tree, StepsOf(w, inc, choices, stage);
    var files: seq<InstalledFile> := [];
    installed, extended, made := 0, 0, 0;
    for i := 0 to |choices|
      invariant made == |StepsUpTo(w, inc, choices, stage, i)| <= |steps| && made == installed + extended
      invariant home.tree == Apply(start, steps[..made])
      invariant |files| == i && forall j | 0 <= j < i :: files[j] == Installed(inc.files[j], choices[j])
    {
      var file, n, e, m := InstallOne(home, w, inc, choices, stage, i, o, start, made);
      installed, extended, made := installed + n, extended + e, m;
      if file.Err? {
        return Err(file.error), installed, extended, made;
      }
      files := files + [file.value];
    }
    return Ok(files), installed, extended, made;
  }

  lemma StageSizes(w: World, inc: Incoming, choices: seq<Choice>, stage: Stage)
    requires StageFor(w, inc, choices, stage)
    ensures |choices| == |inc.files|
    ensures |StepsUpTo(w, inc, choices, stage, 0)| == 0
    ensures forall tree: Tree, steps: seq<Step> :: Apply(tree, steps[..0]) == tree
  {
  }

  // ---- an accepted publication goes through ----

  /** Whatever must grow into an incoming file is a paginated prefix of it, so the incoming file is paginated. */
  lemma GrowsPaginated(t: Target, inc: Incoming, i: nat, c: Candidate)
    requires Accepted(t, inc) && i < |inc.files| == |inc.payload| && AdmitSelectionOk(t, inc)
    requires c in AdmissionOf(t, inc).inv && MustGrow(t, inc, i, c)
    ensures inc.files[i].meta.mode == "paginated" && PrerequisitePath(c.path)
  {
    hide AdmitSelection, Read, PrerequisitePath, Check, ParseName, ManagedPath, Joined, Distinct, CutoffFor, Compare,
         Visible, CollisionFree, Lossless;
    AcceptedLossless(t, inc);
    GrowingCandidate(t, inc, i, c);
    ValidAt(t.w, t.limits, inc, i);
    CutoffOf(t.w, t.limits, inc, i);
    CompareCases(t.w, t.limits, inc, i, t.tree[c.path], c);
    GrownMode(t.w, t.limits, inc, i, t.tree[c.path], c);
  }

  lemma GrownMode(w: World, limits: Limits, inc: Incoming, i: nat, node: Node, c: Candidate)
    requires i < |inc.files| == |inc.payload| && c.thread == inc.files[i].thread
    requires Describes(w, limits, inc.files[i], inc.payload[i])
    requires Visible(w, c.path, node).clean && Visible(w, c.path, node).data < inc.payload[i]
    requires Read(w, node, c, None, limits, false).Ok?
    requires CompareGrowth(w, limits, inc, i, Read(w, node, c, None, limits, false).value).Ok?
    ensures inc.files[i].meta.mode == "paginated"
  {
    hide Summarize, Decoded;
    var d := Visible(w, c.path, node).data;
    assert Visible(w, c.path, node) == Stream(d, true);
    GrowthMode(w, limits, inc, i, Read(w, node, c, None, limits, false).value);
    ContinuationMetadata(w, d, inc.payload[i], c.thread, limits);
  }

  lemma GrowthMode(w: World, limits: Limits, inc: Incoming, i: nat, existing: File)
    requires i < |inc.files| == |inc.payload| && CompareGrowth(w, limits, inc, i, existing).Ok?
    ensures existing.meta.mode == "paginated"
  {
    hide Read;
  }

  /** Every longer copy a publication prepares meets preparePrefix's own demands. */
  lemma AcceptedExtendable(t: Target, inc: Incoming)
    requires Accepted(t, inc)
    ensures Check(t, inc).Ok? && |Check(t, inc).value| == |inc.files| && AllExtendable(inc, Check(t, inc).value)
  {
    hide AdmitSelection, Accepted, Check, Compare, PrerequisitePath, AllOf, Present;
    AcceptedShape(t, inc);
    forall i, f | 0 <= i < |inc.files| && f in Check(t, inc).value[i].extensions
      ensures Extendable(inc, i, f)
    {
      ChoiceAt(t, inc, i);
      ExtensionsAre(t, inc, i, AdmissionOf(t, inc).inv);
      var c :| c in AdmissionOf(t, inc).inv && MustGrow(t, inc, i, c) &&
               f == Compare(t.w, t.limits, inc, i, t.tree[c.path], c).value.0;
      Grown(t, inc, i, c);
      GrowsPaginated(t, inc, i, c);
    }
  }

  /** Each step of an accepted publication finds its path exactly as the check did. */
  lemma AcceptedEnabled(t: Target, inc: Incoming, stage: Stage)
    requires Accepted(t, inc) && StageFor(t.w, inc, Check(t, inc).value, stage)
    ensures AllEnabled(t.tree, StepsOf(t.w, inc, Check(t, inc).value, stage))
  {
    hide AdmitSelection, Accepted, Check, StageFor, StepsOf, Enabled, SafeExtend, SafeInstall, Compatible;
    AcceptedShape(t, inc);
    var rows: Rows := if t.sel.Some? then map[Main(inc).thread := t.sel.value] else map[];
    var steps := StepsOf(t.w, inc, Check(t, inc).value, stage);
    PublicationIsSafe(t, inc, stage, rows, 0);
    forall k | 0 <= k < |steps|
      ensures Enabled(Apply(t.tree, steps[..k]), steps[k])
    {
      RestStaysSafe(t.w, t.tree, rows, steps, k);
      assert steps[k..][0] == steps[k];
    }
  }

  lemma RepairAdmitted(t: Target, inc: Incoming)
    requires inc.files != [] && AdmitSelection(t, inc).Ok? && AdmitSelection(t, inc).value.repair.Some?
    ensures AdmitSelection(t, inc).value.repair == t.sel && t.sel.value.mode == "paginated"
  {
    hide ParseName, PrerequisitePath, SelectablePath, TrimSuffix, Forms, PresentForms, SelectedCandidate, Base;
  }

  /** A repair is only ever planned for a paginated prerequisite row. */
  lemma RepairPaginated(t: Target, inc: Incoming)
    requires inc.files != [] && |inc.files| == |inc.payload| && Check(t, inc).Ok?
    ensures Check(t, inc).value != [] && |Check(t, inc).value| == |inc.files|
    ensures Repair(Check(t, inc).value).Some? ==>
            Repair(Check(t, inc).value) == t.sel && t.sel.value.mode == "paginated"
  {
    hide AdmitSelection, Unrivalled, AllFit, AllOf, WeighAll, ChooseFrom, Extensions, Usable, PrerequisitePath;
    CheckAccepts(t, inc);
    var a, n := AdmitSelection(t, inc).value, |inc.files| - 1;
    ChooseFromFacts(t, inc, a, 0);
    WeighAllFacts(t, inc, n, FreshChoice(inc, n, a.repair), a.inv);
    if a.repair.Some? {
      RepairAdmitted(t, inc);
    }
  }

  // ---- publish ----

  /** Live storage after the first `made` steps, and no others. */
  ghost predicate Changed(w: World, inc: Incoming, choices: seq<Choice>, stage: Stage, before: Tree, after: Tree,
                          made: nat) {
    StageFor(w, inc, choices, stage) && made <= |StepsOf(w, inc, choices, stage)| &&
    after == Apply(before, StepsOf(w, inc, choices, stage)[..made])
  }

  ghost predicate Finished(w: World, inc: Incoming, choices: seq<Choice>, stage: Stage, made: nat) {
    StageFor(w, inc, choices, stage) && made == |StepsOf(w, inc, choices, stage)|
  }

  /** The rows after promotion of the thread's row, no other row touched. */
  ghost predicate RowPromoted(inc: Incoming, choices: seq<Choice>, before: StateDb.Table, after: StateDb.Table) {
    inc.files != [] && |choices| == |inc.files| && Repair(choices).Some? &&
    StateDb.Matches(before, inc.thread, Repair(choices).value) &&
    var report := ReportOf(inc, choices);
    after == before[inc.thread :=
      StateDb.Promoted(before[inc.thread], report.mainPath, report.archived, Main(inc).modified)]
  }

  method StageAll(staging: Staging, w: World, limits: Limits, inc: Incoming, choices: seq<Choice>, o: Outside)
    returns (r: Result<Stage>)
    requires ValidIncoming(w, limits, inc) && staging.Holds(inc) && |choices| == |inc.files|
    modifies staging
    ensures r.Ok? ==> StageFor(w, inc, choices, r.value)
    ensures AllExtendable(inc, choices) && (forall k :: !o.spoiled(k)) ==> r.Ok?
  {
    hide ValidIncoming, Staged, AllExtendable, AllCopied, StageFor;
    var prepared := staging.PrepareAll(w, limits, inc, choices, o);
    if prepared.Err? {
      return Err(prepared.error);
    }
    StagedSizes(inc, staging.slots, staging.nodes);
    CopiesThere(w, inc, choices, staging.nodes, prepared.value);
    ReceivedThere(inc, staging.slots, staging.nodes);
    StagedFor(w, inc, choices, staging.slots, staging.nodes, prepared.value);
    return Ok(StageOf(inc, staging.nodes, prepared.value));
  }

  lemma StagedSizes(inc: Incoming, slots: seq<string>, nodes: map<string, Node>)
    requires Staged(inc, slots, nodes)
    ensures |inc.files| == |inc.payload|
  {
  }

  /** The part of publish that changes anything: reserve the row to be repaired, install, promote the row. */
  method Commit(home: Storage, db: StateDb.Database, w: World, inc: Incoming, choices: seq<Choice>, stage: Stage,
                o: Outside)
    returns (r: Result<Report>, installed: nat, extended: nat, made: nat)
    requires StageFor(w, inc, choices, stage) && choices != [] && |choices| == |inc.files| && !db.reserved
    modifies home, db
    ensures Changed(w, inc, choices, stage, old(home.tree), home.tree, made)
    ensures installed + extended <= made <= installed + extended + 1
    ensures r.Ok? ==>
              Finished(w, inc, choices, stage, made) && made == installed + extended &&
                r.value == ReportOf(inc, choices)
    ensures !db.reserved && db.status == old(db.status)
    ensures db.rows != old(db.rows) ==>
              Finished(w, inc, choices, stage, made) && RowPromoted(inc, choices, old(db.rows), db.rows)
    ensures r.Ok? && Repair(choices).Some? ==>
              RowPromoted(inc, choices, old(db.rows), db.rows) && Repair(choices).value.mode == "paginated"
    ensures AllEnabled(old(home.tree), StepsOf(w, inc, choices, stage)) && Undisturbed(o) &&
            (Repair(choices).Some? ==>
               db.migrated && db.known && db.status == StateDb.Complete &&
               StateDb.Matches(old(db.rows), inc.thread, Repair(choices).value) &&
               Repair(choices).value.mode == "paginated")
            ==> r.Ok?
  {
    hide StageFor, StepsOf, AllEnabled, Apply, Installed;
    installed, extended, made := 0, 0, 0;
    NoSteps(home.tree, w, inc, choices, stage);
    var repair := Repair(choices);
    if repair.Some? {
      var begun := db.BeginSelectionUpdate(inc.thread, repair.value, o.same(0));
      if begun.Err? {
        return Err(begun.error), 0, 0, 0;
      }
    }
    var files;
    files, installed, extended, made := InstallAll(home, w, inc, choices, stage, o);
    if files.Err? {
      db.Rollback();
      return Err(files.error), installed, extended, made;
    }
    var path := choices[|choices| - 1].path;
    var archived := HasPrefix(path, "archived_sessions/");
    if repair.Some? {
      var finished := db.Finish(inc.thread, repair.value, path, archived, Main(inc).modified, o.same(1), o.same(2),
                                o.commit);
      if finished.Err? {
        return Err(finished.error), installed, extended, made;
      }
    }
    return Ok(Report(inc.thread, path, archived, files.value, Main(inc).meta, repair.Some?)), installed, extended, made;
  }

  lemma NoSteps(tree: Tree, w: World, inc: Incoming, choices: seq<Choice>, stage: Stage)
    requires StageFor(w, inc, choices, stage)
    ensures Changed(w, inc, choices, stage, tree, tree, 0)
  {
    hide StageFor, StepsOf;
  }

  /** publish under its locks, up to the confirmation of the selection: validate everything, stage everything, then
      change live storage one step at a time; a row that names a prerequisite of the lineage is reserved before the
      first change and promoted after the last. The ghost results say what the check saw and what was staged. With
      ideal hashing and lossless compression an accepted publication fails only through outside trouble. */
  method PublishLocked(home: Storage, staging: Staging, db: StateDb.Database, w: World, limits: Limits, inc: Incoming,
                 o: Outside)
    returns (r: Result<Report>, installed: nat, extended: nat, made: nat, confirms: bool, ghost t: Target,
             ghost stage: Stage)
    requires ValidIncoming(w, limits, inc) && staging.Holds(inc) && !db.reserved
    modifies home, staging, db
    ensures t == Target(w, limits, old(home.tree), t.inv, StateDb.Selected(old(db.rows), inc.thread))
    ensures InventoryOf(t.tree, t.inv) && |inc.files| == |inc.payload| >= 1
    ensures Check(t, inc).Err? ==>
            r == Err(Check(t, inc).error) && home.tree == old(home.tree) && db.rows == old(db.rows)
    ensures if made == 0 && r.Err? then home.tree == old(home.tree)
            else Check(t, inc).Ok? && Changed(w, inc, Check(t, inc).value, stage, old(home.tree), home.tree, made)
    ensures installed + extended <= made <= installed + extended + 1
    ensures r.Ok? ==>
              Finished(w, inc, Check(t, inc).value, stage, made) && made == installed + extended &&
              |Check(t, inc).value| == |inc.files| && r.value == ReportOf(inc, Check(t, inc).value)
    ensures r.Ok? ==> (confirms <==> |inc.files| > 1 || Check(t, inc).value[|inc.files| - 1].promoted)
    ensures !db.reserved && db.status == old(db.status)
    ensures db.rows != old(db.rows) ==>
              Check(t, inc).Ok? && Finished(w, inc, Check(t, inc).value, stage, made) &&
              RowPromoted(inc, Check(t, inc).value, old(db.rows), db.rows)
    ensures r.Ok? && r.value.repaired ==> RowPromoted(inc, Check(t, inc).value, old(db.rows), db.rows)
    ensures CollisionFree(w) && Lossless(w) && Undisturbed(o) && Check(t, inc).Ok? &&
            (Check(t, inc).value != [] && Repair(Check(t, inc).value).Some? ==>
               db.migrated && db.known && db.status == StateDb.Complete)
            ==> r.Ok?
  {
    hide AdmitSelection, Check, StageFor, StepsOf, AllEnabled, AllExtendable, InventoryOf, ReportOf, RowPromoted,
         Changed, Finished, CollisionFree, Lossless, ValidIncoming, Staged;
    NotEmpty(w, limits, inc);
    var inv := home.Inventory();
    var target := Target(w, limits, home.tree, inv, StateDb.Selected(db.rows, inc.thread));
    t, stage := target, Stage([], []);
    var choices := CheckConflicts(target, inc);
    if choices.Err? {
      return Err(choices.error), 0, 0, 0, false, t, stage;
    }
    RepairPaginated(t, inc);
    ProceedsIfIdeal(t, inc);
    var copies := StageAll(staging, w, limits, inc, choices.value, o);
    if copies.Err? {
      return Err(copies.error), 0, 0, 0, false, t, stage;
    }
    stage := copies.value;
    confirms := |inc.files| > 1 || choices.value[|choices.value| - 1].promoted;
    EnabledIfIdeal(t, inc, stage);
    r, installed, extended, made := Commit(home, db, w, inc, choices.value, copies.value, o);
    Unmade(w, inc, choices.value, stage, t.tree, home.tree, made);
    ReportRepaired(inc, choices.value);
  }

  lemma NotEmpty(w: World, limits: Limits, inc: Incoming)
    requires ValidIncoming(w, limits, inc)
    ensures |inc.files| == |inc.payload| >= 1 && limits.Valid()
  {
    hide ValidFile, Joined, Distinct;
  }

  lemma ReportRepaired(inc: Incoming, choices: seq<Choice>)
    requires inc.files != [] && |choices| == |inc.files|
    ensures ReportOf(inc, choices).repaired == Repair(choices).Some?
  {
  }

  lemma Unmade(w: World, inc: Incoming, choices: seq<Choice>, stage: Stage, before: Tree, after: Tree, made: nat)
    requires Changed(w, inc, choices, stage, before, after, made)
    ensures made == 0 ==> after == before
  {
    hide StageFor, StepsOf;
  }

  lemma ProceedsIfIdeal(t: Target, inc: Incoming)
    requires ValidIncoming(t.w, t.limits, inc) && InventoryOf(t.tree, t.inv) && |inc.files| == |inc.payload| >= 1
    ensures Check(t, inc).Ok? ==> |Check(t, inc).value| == |inc.files|
    ensures CollisionFree(t.w) && Lossless(t.w) && Check(t, inc).Ok? ==> AllExtendable(inc, Check(t, inc).value)
  {
    hide Check, AllExtendable, InventoryOf, ValidIncoming, CollisionFree, Lossless;
    if Check(t, inc).Ok? {
      RepairPaginated(t, inc);
      if CollisionFree(t.w) && Lossless(t.w) {
        AcceptedExtendable(t, inc);
      }
    }
  }

  lemma EnabledIfIdeal(t: Target, inc: Incoming, stage: Stage)
    requires ValidIncoming(t.w, t.limits, inc) && InventoryOf(t.tree, t.inv) && |inc.files| == |inc.payload| >= 1
    requires Check(t, inc).Ok? && StageFor(t.w, inc, Check(t, inc).value, stage)
    ensures CollisionFree(t.w) && Lossless(t.w) ==> AllEnabled(t.tree, StepsOf(t.w, inc, Check(t, inc).value, stage))
  {
    hide Check, StageFor, StepsOf, AllEnabled, InventoryOf, ValidIncoming, CollisionFree, Lossless;
    if CollisionFree(t.w) && Lossless(t.w) {
      AcceptedEnabled(t, inc, stage);
    }
  }
}
