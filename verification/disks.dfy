// Live directories that can lose what was not synced: the directory entries of files and of the directories themselves.
// directory of internal/session/stage.go, publish of publish.go and publishPrefix of extend.go.

module Disks {
  import opened Model
  import opened Format
  import opened Steps

  // ---- directories ----

  /** The directory of a path, with its slash; the home itself is the empty one. */
  function Folder(p: string): (f: string)
    ensures |f| <= |p|
  {
    if p == "" || p[|p| - 1] == '/' then p else Folder(p[..|p| - 1])
  }

  /** The directory that holds the entry of a directory. */
  function Holder(dir: string): (f: string)
    ensures dir != "" ==> |f| < |dir|
  {
    if dir == "" then "" else Folder(dir[..|dir| - 1])
  }

  /** A directory and all it lies in, outermost first. */
  function Above(dir: string): seq<string>
    decreases |dir|
  {
    if dir == "" then [] else Above(Holder(dir)) + [dir]
  }

  /** Every component of the path's directory. */
  function Way(p: string): seq<string> {
    Above(Folder(p))
  }

  // ---- a disk with unsynced changes ----

  /** The files stored now and the directories there are; for each path with unsynced changes what may be there instead
      after a machine crash, earlier versions or nothing; and the directories whose own entries have not been synced. */
  datatype Disk = Disk(now: Tree, dirs: set<string>, pending: map<string, set<Option<Node>>>, unsynced: set<string>)

  function Version(tree: Tree, p: string): Option<Node> {
    if p in tree then Some(tree[p]) else None
  }

  /** A disk with nothing to lose. */
  function AllSynced(tree: Tree, dirs: set<string>): Disk {
    Disk(tree, dirs, map[], {})
  }

  /** One system call that changes a directory: a new subdirectory, or the link or rename of a publication step. */
  datatype Op = Mkdir(dir: string) | Put(step: Step)

  /** The change, not synced. A directory that is there stays as it is. */
  function Do(d: Disk, op: Op): Disk {
    match op
    case Mkdir(dir) => if dir in d.dirs then d else d.(dirs := d.dirs + {dir}, unsynced := d.unsynced + {dir})
    case Put(s) =>
      var before := if s.path in d.pending then d.pending[s.path] else {};
      d.(now := ApplyStep(d.now, s), pending := d.pending[s.path := before + {Version(d.now, s.path)}])
  }

  /** The directory synced right after the change. A directory that was there already is not synced. */
  function SyncedBy(dirs: set<string>, op: Op): Option<string> {
    match op
    case Mkdir(dir) => if dir in dirs then None else Some(Holder(dir))
    case Put(s) => Some(Folder(s.path))
  }

  /** Syncing a directory makes all its entries durable, whoever made them. */
  function Sync(d: Disk, folder: string): Disk {
    d.(pending := map p | p in d.pending && Folder(p) != folder :: d.pending[p],
       unsynced := set dir | dir in d.unsynced && Holder(dir) != folder)
  }

  function Done(d: Disk, op: Op): Disk {
    var folder := SyncedBy(d.dirs, op);
    if folder.Some? then Sync(Do(d, op), folder.value) else Do(d, op)
  }

  function DoneAll(d: Disk, ops: seq<Op>): Disk {
    if ops == [] then d else Done(DoneAll(d, ops[..|ops| - 1]), ops[|ops| - 1])
  }

  /** Every change is synced before the next is made; an attempt stops after any of them, with its sync done or not. */
  function Attempted(d: Disk, ops: seq<Op>, synced: bool): Disk {
    if ops == [] then d
    else
      var before := DoneAll(d, ops[..|ops| - 1]);
      if synced then Done(before, ops[|ops| - 1]) else Do(before, ops[|ops| - 1])
  }

  // ---- machine crashes ----

  predicate LiesIn(p: string, lost: set<string>) {
    exists dir | dir in lost :: dir in Way(p)
  }

  /** A machine crash takes back some of the unsynced directories with all that is in them; everywhere else each path is
      as it is, or one of its unsynced earlier versions. */
  ghost predicate Leaves(d: Disk, lost: set<string>, after: Tree) {
    lost <= d.unsynced &&
    forall p :: if LiesIn(p, lost) then Version(after, p) == None else VersionLeft(d, p, Version(after, p))
  }

  predicate VersionLeft(d: Disk, p: string, v: Option<Node>) {
    v == Version(d.now, p) || (p in d.pending && v in d.pending[p])
  }

  ghost predicate MayLeave(d: Disk, after: Tree) {
    exists lost :: Leaves(d, lost, after)
  }

  function DirsLeft(dirs: set<string>, lost: set<string>): set<string> {
    set dir | dir in dirs && forall l | l in lost :: l !in Above(dir)
  }

  ghost predicate CrashesTo(d: Disk, d1: Disk) {
    d1.pending == map[] && d1.unsynced == {} &&
    exists lost :: Leaves(d, lost, d1.now) && d1.dirs == DirsLeft(d.dirs, lost)
  }

  lemma SameVersions(a: Tree, b: Tree)
    requires forall p :: Version(a, p) == Version(b, p)
    ensures a == b
  {
    forall p
      ensures p in a <==> p in b
      ensures p in a && p in b ==> a[p] == b[p]
    {
      assert Version(a, p) == Version(b, p);
    }
  }

  // ---- what is durable ----

  /** The file's own entry and the entry of every component of its path are as durable as they will be. */
  predicate Secured(d: Disk, p: string) {
    (p in d.pending ==> forall v | v in d.pending[p] :: v == Version(d.now, p)) &&
    (p in d.now ==> forall dir | dir in d.unsynced :: dir !in Way(p))
  }

  ghost predicate Durable(d: Disk) {
    forall after | MayLeave(d, after) :: after == d.now
  }

  /** The tree in which one path has another of its versions. */
  function Back(tree: Tree, p: string, v: Option<Node>): (r: Tree)
    ensures Version(r, p) == v && forall q | q != p :: Version(r, q) == Version(tree, q)
  {
    if v.Some? then tree[p := v.value] else tree - {p}
  }

  /** The tree without one directory. */
  function Without(tree: Tree, dir: string): (r: Tree)
    ensures forall p :: Version(r, p) == if dir in Way(p) then None else Version(tree, p)
  {
    map p | p in tree && dir !in Way(p) :: tree[p]
  }

  lemma TakenBack(d: Disk, p: string, v: Option<Node>)
    requires p in d.pending && v in d.pending[p]
    ensures MayLeave(d, Back(d.now, p, v))
  {
    hide Way;
    assert Leaves(d, {}, Back(d.now, p, v));
  }

  lemma DirectoryLost(d: Disk, dir: string)
    requires dir in d.unsynced
    ensures MayLeave(d, Without(d.now, dir))
  {
    hide Way;
    forall p
      ensures LiesIn(p, {dir}) <==> dir in Way(p)
    {
    }
    assert Leaves(d, {dir}, Without(d.now, dir));
  }

  /** One path, exactly: a machine crash cannot change it if and only if it is secured. */
  lemma KeptExactly(d: Disk, p: string)
    ensures Secured(d, p) <==> forall after | MayLeave(d, after) :: Version(after, p) == Version(d.now, p)
  {
    hide Way, Back, Without;
    if Secured(d, p) {
      forall after | MayLeave(d, after)
        ensures Version(after, p) == Version(d.now, p)
      {
        var lost :| Leaves(d, lost, after);
        assert LiesIn(p, lost) ==> p !in d.now;
      }
    } else if v :| p in d.pending && v in d.pending[p] && v != Version(d.now, p) {
      TakenBack(d, p, v);
    } else {
      var dir :| p in d.now && dir in d.unsynced && dir in Way(p);
      DirectoryLost(d, dir);
    }
  }

  /** The whole disk: a machine crash can change nothing if and only if every path is secured. */
  lemma DurableExactly(d: Disk)
    ensures Durable(d) <==> forall p :: Secured(d, p)
  {
    hide Secured, MayLeave;
    forall p
      ensures Secured(d, p) <==> forall after | MayLeave(d, after) :: Version(after, p) == Version(d.now, p)
    {
      KeptExactly(d, p);
    }
    if forall p :: Secured(d, p) {
      forall after | MayLeave(d, after)
        ensures after == d.now
      {
        SameVersions(after, d.now);
      }
    }
  }

  /** A path can be gone after a crash exactly when it is not there now, or has been linked and not synced, or lies in a
      directory whose entry has not been synced. */
  predicate AtRisk(d: Disk, p: string) {
    p !in d.now || (p in d.pending && None in d.pending[p]) || LiesIn(p, d.unsynced)
  }

  lemma GoneExactly(d: Disk, p: string)
    ensures (exists after :: MayLeave(d, after) && p !in after) <==> AtRisk(d, p)
  {
    hide Way, Back, Without;
    if AtRisk(d, p) {
      if p !in d.now {
        assert Leaves(d, {}, d.now);
        assert MayLeave(d, d.now);
      } else if p in d.pending && None in d.pending[p] {
        TakenBack(d, p, None);
        assert Version(Back(d.now, p, None), p) == None;
      } else {
        var dir :| dir in d.unsynced && dir in Way(p);
        DirectoryLost(d, dir);
        assert Version(Without(d.now, dir), p) == None;
      }
    } else {
      forall after | MayLeave(d, after)
        ensures p in after
      {
        var lost :| Leaves(d, lost, after);
        assert !LiesIn(p, lost);
        assert VersionLeft(d, p, Version(after, p));
      }
    }
  }

  // ---- what a complete attempt syncs ----

  /** The directories a complete attempt syncs, from the directories it finds. */
  function Syncs(dirs: set<string>, ops: seq<Op>): set<string> {
    set op | op in ops && SyncedBy(dirs, op).Some? :: SyncedBy(dirs, op).value
  }

  function PutsIn(ops: seq<Op>): seq<Step> {
    if ops == [] then []
    else
      var last := ops[|ops| - 1];
      PutsIn(ops[..|ops| - 1]) + if last.Put? then [last.step] else []
  }

  lemma SyncsMore(dirs: set<string>, init: seq<Op>, last: Op)
    ensures Syncs(dirs, init + [last]) ==
            Syncs(dirs, init) + if SyncedBy(dirs, last).Some? then {SyncedBy(dirs, last).value} else {}
  {
    hide Holder, Folder;
    assert forall op :: op in init + [last] <==> op in init || op == last;
  }

  lemma ApplyMore(tree: Tree, steps: seq<Step>, s: Step)
    ensures Apply(tree, steps + [s]) == ApplyStep(Apply(tree, steps), s)
  {
    assert (steps + [s])[..|steps|] == steps;
  }

  /** What a complete attempt makes of a disk: its own entries are synced, and of the earlier ones those that lie in a
      directory it has synced. */
  lemma {:induction false} DoneAllIs(d: Disk, ops: seq<Op>)
    ensures var d1, synced := DoneAll(d, ops), Syncs(d.dirs, ops);
            d1.now == Apply(d.now, PutsIn(ops)) &&
            d1.dirs == d.dirs + (set op | op in ops && op.Mkdir? :: op.dir) &&
            d1.pending == (map p | p in d.pending && Folder(p) !in synced :: d.pending[p]) &&
            d1.unsynced == set dir | dir in d.unsynced && Holder(dir) !in synced
  {
    hide Folder, Holder;
    if ops == [] {
      assert Syncs(d.dirs, ops) == {};
    } else {
      hide Done, Syncs, PutsIn, Apply;
      var init, last := ops[..|ops| - 1], ops[|ops| - 1];
      DoneAllIs(d, init);
      assert ops == init + [last];
      LastMade(d, DoneAll(d, init), init, last);
      LastDone(d, DoneAll(d, init), init, last);
    }
  }

  lemma LastMade(d: Disk, e: Disk, init: seq<Op>, last: Op)
    requires e.now == Apply(d.now, PutsIn(init)) && e.dirs == d.dirs + (set op | op in init && op.Mkdir? :: op.dir)
    ensures Done(e, last).now == Apply(d.now, PutsIn(init + [last]))
    ensures Done(e, last).dirs == d.dirs + (set op | op in init + [last] && op.Mkdir? :: op.dir)
  {
    hide Folder, Holder, Apply;
    assert (init + [last])[..|init|] == init;
    assert forall op :: op in init + [last] <==> op in init || op == last;
    if last.Put? {
      ApplyMore(d.now, PutsIn(init), last.step);
    } else {
      assert PutsIn(init) + [] == PutsIn(init);
    }
  }

  /** One more change. A directory made before in the same attempt has had its holder synced then. */
  lemma LastDone(d: Disk, e: Disk, init: seq<Op>, last: Op)
    requires e.dirs == d.dirs + (set op | op in init && op.Mkdir? :: op.dir)
    requires e.pending == map p | p in d.pending && Folder(p) !in Syncs(d.dirs, init) :: d.pending[p]
    requires e.unsynced == set dir | dir in d.unsynced && Holder(dir) !in Syncs(d.dirs, init)
    ensures var d1, synced := Done(e, last), Syncs(d.dirs, init + [last]);
            d1.pending == (map p | p in d.pending && Folder(p) !in synced :: d.pending[p]) &&
            d1.unsynced == set dir | dir in d.unsynced && Holder(dir) !in synced
  {
    hide Folder, Holder;
    SyncsMore(d.dirs, init, last);
    if last.Mkdir? && last.dir in e.dirs && last.dir !in d.dirs {
      assert Holder(last.dir) in Syncs(d.dirs, init);
    }
  }

  /** After a complete attempt from any disk, what earlier attempts and other programs left unsynced on the way to a
      path or at its own entry is synced exactly where the attempt has synced the directory that holds it. */
  predicate SecuredBy(d: Disk, ops: seq<Op>, p: string) {
    (p in d.pending && Folder(p) !in Syncs(d.dirs, ops) ==> forall v | v in d.pending[p] :: v == Version(d.now, p)) &&
    (p in Apply(d.now, PutsIn(ops)) ==>
       forall dir | dir in d.unsynced && dir in Way(p) :: Holder(dir) in Syncs(d.dirs, ops))
  }

  lemma {:induction false} ApplyElsewhere(tree: Tree, steps: seq<Step>, p: string)
    requires forall s | s in steps :: s.path != p
    ensures Version(Apply(tree, steps), p) == Version(tree, p)
  {
    if steps != [] {
      ApplyElsewhere(tree, steps[..|steps| - 1], p);
    }
  }

  lemma {:induction false} PutIn(ops: seq<Op>, s: Step)
    ensures s in PutsIn(ops) <==> Put(s) in ops
  {
    if ops != [] {
      var init, last := ops[..|ops| - 1], ops[|ops| - 1];
      PutIn(init, s);
      assert ops == init + [last];
    }
  }

  lemma SecuredAfter(d: Disk, ops: seq<Op>, p: string)
    ensures Secured(DoneAll(d, ops), p) <==> SecuredBy(d, ops, p)
  {
    hide Folder, Holder, Way, DoneAll, Apply;
    DoneAllIs(d, ops);
    if p in d.pending && Folder(p) !in Syncs(d.dirs, ops) {
      forall s | s in PutsIn(ops)
        ensures s.path != p
      {
        PutIn(ops, s);
        assert SyncedBy(d.dirs, Put(s)) == Some(Folder(s.path));
      }
      ApplyElsewhere(d.now, PutsIn(ops), p);
    }
  }

  /** Durability of a complete attempt, exactly, whatever was unsynced when it began: no machine crash can change
      anything afterwards if and only if, for every path, the file's own entry and the entry of every component of its
      path had been synced since they were made, or are held by a directory the attempt has synced. */
  lemma CompleteDurable(d: Disk, ops: seq<Op>)
    ensures Durable(DoneAll(d, ops)) <==> forall p :: SecuredBy(d, ops, p)
  {
    hide Secured, SecuredBy, DoneAll, Durable;
    DurableExactly(DoneAll(d, ops));
    forall p
      ensures Secured(DoneAll(d, ops), p) <==> SecuredBy(d, ops, p)
    {
      SecuredAfter(d, ops, p);
    }
  }

  // ---- the changes of publication steps ----

  function Mkdirs(dirs: seq<string>): (r: seq<Op>)
    ensures |r| == |dirs| && forall i | 0 <= i < |r| :: r[i] == Mkdir(dirs[i])
  {
    seq(|dirs|, i requires 0 <= i < |dirs| => Mkdir(dirs[i]))
  }

  /** A link first makes every missing component of its directory; a rename finds its directory there. */
  function OpsOf(s: Step): seq<Op> {
    (if s.Install? then Mkdirs(Way(s.path)) else []) + [Put(s)]
  }

  function OpsFor(steps: seq<Step>): seq<Op> {
    if steps == [] then [] else OpsFor(steps[..|steps| - 1]) + OpsOf(steps[|steps| - 1])
  }

  lemma {:induction false} NoPuts(dirs: seq<string>, k: nat)
    requires k <= |dirs|
    ensures PutsIn(Mkdirs(dirs)[..k]) == []
  {
    if k > 0 {
      NoPuts(dirs, k - 1);
      assert Mkdirs(dirs)[..k][..k - 1] == Mkdirs(dirs)[..k - 1];
    }
  }

  lemma {:induction false} PutsConcat(a: seq<Op>, b: seq<Op>)
    ensures PutsIn(a + b) == PutsIn(a) + PutsIn(b)
  {
    if b == [] {
      assert a + b == a;
    } else {
      PutsConcat(a, b[..|b| - 1]);
      assert (a + b)[..|a + b| - 1] == a + b[..|b| - 1];
    }
  }

  /** Of one step's system calls the last alone makes it. */
  lemma StepMade(s: Step, k: nat)
    requires k <= |OpsOf(s)|
    ensures PutsIn(OpsOf(s)[..k]) == if k == |OpsOf(s)| then [s] else []
  {
    hide Way;
    var dirs := if s.Install? then Way(s.path) else [];
    var own := OpsOf(s);
    assert own == Mkdirs(dirs) + [Put(s)];
    NoPuts(dirs, if k <= |dirs| then k else |dirs|);
    if k <= |dirs| {
      assert own[..k] == Mkdirs(dirs)[..k];
    } else {
      assert own[..k] == own && own[..|own| - 1] == Mkdirs(dirs)[..|dirs|];
    }
  }

  /** An attempt stopped after k system calls has made a number of its steps, in order. */
  lemma {:induction false} StepsMade(steps: seq<Step>, k: nat) returns (m: nat)
    requires k <= |OpsFor(steps)|
    ensures m <= |steps| && PutsIn(OpsFor(steps)[..k]) == steps[..m]
    ensures k == |OpsFor(steps)| ==> m == |steps|
  {
    hide OpsOf, PutsIn;
    if steps == [] {
      m := 0;
      NoPuts([], 0);
      assert Mkdirs([])[..0] == [] == OpsFor(steps)[..k];
    } else {
      var n := |steps| - 1;
      var before, own := OpsFor(steps[..n]), OpsOf(steps[n]);
      OpsNotEmpty(steps[n]);
      if k <= |before| {
        m := StepsMade(steps[..n], k);
        assert OpsFor(steps)[..k] == before[..k] && steps[..n][..m] == steps[..m];
      } else {
        var all := StepsMade(steps[..n], |before|);
        assert before[..|before|] == before && steps[..n][..all] == steps[..n];
        assert OpsFor(steps)[..k] == before + own[..k - |before|];
        PutsConcat(before, own[..k - |before|]);
        StepMade(steps[n], k - |before|);
        m := if k == |OpsFor(steps)| then |steps| else n;
        assert steps[..n] + [] == steps[..n] && steps[..n] + [steps[n]] == steps[..|steps|];
      }
    }
  }

  lemma OpsNotEmpty(s: Step)
    ensures OpsOf(s) != []
  {
  }

  // ---- the system calls as publish makes them ----

  /** What the system makes of one change: it goes through with its sync, it is refused, or its sync fails. */
  datatype Fault = NoFault | CallFails | SyncFails

  /** The disk after some of the changes, the last one synced or not. */
  ghost predicate Stopped(before: Disk, ops: seq<Op>, k: nat, after: Disk) {
    k <= |ops| && (after == DoneAll(before, ops[..k]) || after == Attempted(before, ops[..k], false))
  }

  class LiveDirectory {
    var disk: Disk

    constructor (disk: Disk)
      ensures this.disk == disk
    {
      this.disk := disk;
    }

    /** Mkdirat and the sync of the parent; a directory that is there is neither made nor synced. */
    method MakeDirectory(dir: string, fault: Fault) returns (r: Result<()>)
      modifies this
      ensures r.Ok? ==> disk == Done(old(disk), Mkdir(dir))
      ensures r.Err? ==> disk == old(disk) || disk == Do(old(disk), Mkdir(dir))
      ensures r.Err? <==> fault.CallFails? || (fault.SyncFails? && dir !in old(disk).dirs)
    {
      if fault.CallFails? {
        return Err(Interrupted);
      }
      if dir in disk.dirs {
        return Ok(());
      }
      disk := disk.(dirs := disk.dirs + {dir}, unsynced := disk.unsynced + {dir});
      if fault.SyncFails? {
        return Err(Interrupted);
      }
      disk := Sync(disk, Holder(dir));
      return Ok(());
    }

    /** directory: every missing component, outermost first, each made durable before the next. */
    method MakeWay(path: string, faults: nat -> Fault) returns (r: Result<()>, ghost k: nat)
      modifies this
      ensures r.Ok? ==> k == |Way(path)| && disk == DoneAll(old(disk), Mkdirs(Way(path)))
      ensures Stopped(old(disk), Mkdirs(Way(path)), k, disk)
      ensures (forall j :: faults(j).NoFault?) ==> r.Ok?
    {
      hide Folder, Holder, Above, Do, Done;
      var dirs := Way(path);
      ghost var ops := Mkdirs(dirs);
      k := 0;
      for i := 0 to |dirs|
        invariant k == i && disk == DoneAll(old(disk), ops[..i])
      {
        assert ops[..i + 1][..i] == ops[..i];
        r := MakeDirectory(dirs[i], faults(i));
        if r.Err? {
          if disk != DoneAll(old(disk), ops[..i]) {
            k := i + 1;
          }
          return;
        }
        k := i + 1;
      }
      assert ops[..|dirs|] == ops;
      r := Ok(());
    }

    /** The exclusive link of publish: its directory, the link, the sync. The file is safe exactly as far as the changes
        it comes after are. */
    method InstallFile(path: string, node: Node, faults: nat -> Fault) returns (r: Result<()>, ghost k: nat)
      requires path !in disk.now
      modifies this
      ensures r.Ok? ==> k == |OpsOf(Install(path, node))| && disk == DoneAll(old(disk), OpsOf(Install(path, node)))
      ensures Stopped(old(disk), OpsOf(Install(path, node)), k, disk)
      ensures (forall j :: faults(j).NoFault?) ==> r.Ok?
    {
      hide Folder, Holder, Above, Do, Done;
      var s := Install(path, node);
      ghost var way, ops := Mkdirs(Way(path)), OpsOf(s);
      assert ops == way + [Put(s)];
      r, k := MakeWay(path, faults);
      assert ops[..k] == way[..k];
      if r.Err? {
        return;
      }
      assert way[..|way|] == way && ops[..|ops|] == ops && ops[..|way|] == way;
      var fault := faults(|Way(path)|);
      if fault.CallFails? {
        return Err(Interrupted), k;
      }
      k := |ops|;
      disk := Do(disk, Put(s));
      if fault.SyncFails? {
        return Err(Interrupted), k;
      }
      disk := Sync(disk, Folder(path));
      PutDone(DoneAll(old(disk), way), s);
      return Ok(()), k;
    }
  }

  lemma PutDone(d: Disk, s: Step)
    ensures Done(d, Put(s)) == Sync(Do(d, Put(s)), Folder(s.path))
  {
  }
}
