// A publication can always be made: publish of internal/session/publish.go under the writer locks of
// internal/session/locks.go, beside whatever other publishers there are.

module Progress {
  import opened Model
  import opened Inspect
  import opened Lineage
  import opened Conflicts
  import opened Steps
  import opened Schedule
  import opened Planning
  import opened Looks
  import opened Concurrency

  /** States one after another, each by an event of one publisher. */
  ghost predicate Alone(w: World, tr: seq<System>, j: nat) {
    tr != [] && forall i | 0 <= i < |tr| - 1 :: Moves(w, tr[i], tr[i + 1], j)
  }

  ghost predicate Moves(w: World, s: System, s1: System, j: nat) {
    exists e :: Next(w, s, s1, j, e)
  }

  lemma OneMore(w: World, tr: seq<System>, j: nat, s1: System, e: Event) returns (tr1: seq<System>)
    requires Alone(w, tr, j) && Next(w, tr[|tr| - 1], s1, j, e)
    ensures Alone(w, tr1, j) && tr1[0] == tr[0] && tr1[|tr1| - 1] == s1
  {
    hide Next;
    assert Moves(w, tr[|tr| - 1], s1, j);
    hide Moves;
    tr1 := tr + [s1];
    forall i | 0 <= i < |tr1| - 1
      ensures Moves(w, tr1[i], tr1[i + 1], j)
    {
      if i < |tr| - 1 {
        assert Moves(w, tr[i], tr[i + 1], j);
      }
    }
  }

  /** The publisher with its locks. */
  function Holding(s: System, j: nat, thread: string, ids: set<string>, held: set<string>): System {
    s.(locks := map id | id in s.locks.Keys + held :: if id in held then j else s.locks[id],
       publishers := s.publishers[j := Publisher(thread, ids, held, Locking, [])])
  }

  /** It takes every lock, one after the other, where nobody holds any of them. */
  lemma {:induction false} TakesAll(w: World, s: System, j: nat, thread: string, ids: set<string>, held: set<string>)
    returns (tr: seq<System>)
    requires j !in s.publishers && thread in ids && held <= ids && forall id | id in held :: id !in s.locks
    ensures Alone(w, tr, j) && tr[0] == s && tr[|tr| - 1] == Holding(s, j, thread, ids, held)
    decreases held
  {
    hide Next, Alone;
    if held == {} {
      tr := Arrived(w, s, j, thread, ids);
    } else {
      var id :| id in held;
      tr := TakesAll(w, s, j, thread, ids, held - {id});
      TakesOne(w, s, j, thread, ids, held, id);
      tr := OneMore(w, tr, j, Holding(s, j, thread, ids, held), Lock(id));
    }
  }

  lemma Arrived(w: World, s: System, j: nat, thread: string, ids: set<string>) returns (tr: seq<System>)
    requires j !in s.publishers && thread in ids
    ensures Alone(w, tr, j) && tr[0] == s && tr[|tr| - 1] == Holding(s, j, thread, ids, {})
  {
    var s1 := Holding(s, j, thread, ids, {});
    assert s1.locks == s.locks;
    assert Next(w, s, s1, j, Arrive(thread, ids));
    assert Moves(w, s, s1, j);
    tr := [s, s1];
  }

  lemma TakesOne(w: World, s: System, j: nat, thread: string, ids: set<string>, held: set<string>, id: string)
    requires j !in s.publishers && held <= ids && id in held && id !in s.locks
    ensures Next(w, Holding(s, j, thread, ids, held - {id}), Holding(s, j, thread, ids, held), j, Lock(id))
  {
    var before, after := Holding(s, j, thread, ids, held - {id}), Holding(s, j, thread, ids, held);
    assert before.locks[id := j] == after.locks;
    assert held - {id} + {id} == held;
  }

  /** The publisher with some of its steps made. */
  function Making(s: System, j: nat, thread: string, ids: set<string>, steps: seq<Step>, k: nat): System
    requires k <= |steps|
  {
    var at := Holding(s, j, thread, ids, ids);
    at.(tree := Apply(s.tree, steps[..k]),
        publishers := at.publishers[j := Publisher(thread, ids, ids, Applying, steps[k..])])
  }

  lemma MakesOne(w: World, s: System, j: nat, thread: string, ids: set<string>, steps: seq<Step>, k: nat)
    requires k < |steps|
    ensures Next(w, Making(s, j, thread, ids, steps, k), Making(s, j, thread, ids, steps, k + 1), j, Applied)
  {
    hide ApplyStep;
    assert steps[..k + 1][..k] == steps[..k] && steps[k..][1..] == steps[k + 1..] && steps[..k + 1][k] == steps[k];
    assert Apply(s.tree, steps[..k + 1]) == ApplyStep(Apply(s.tree, steps[..k]), steps[k]);
  }

  lemma {:induction false} MakesAll(w: World, tr: seq<System>, s: System, j: nat, thread: string, ids: set<string>,
                                    steps: seq<Step>, k: nat) returns (tr1: seq<System>)
    requires k <= |steps| && Alone(w, tr, j) && tr[|tr| - 1] == Making(s, j, thread, ids, steps, 0)
    ensures Alone(w, tr1, j) && tr1[0] == tr[0] && tr1[|tr1| - 1] == Making(s, j, thread, ids, steps, k)
  {
    hide Next, Making, Alone;
    tr1 := tr;
    if k > 0 {
      tr1 := MakesAll(w, tr, s, j, thread, ids, steps, k - 1);
      MakesOne(w, s, j, thread, ids, steps, k - 1);
      tr1 := OneMore(w, tr1, j, Making(s, j, thread, ids, steps, k), Applied);
    }
  }

  lemma PlansNow(w: World, s: System, j: nat, t: Target, inc: Incoming, stage: Stage)
    requires j !in s.publishers && t.w == w && t.tree == s.tree && t.sel == RowOf(s.rows, inc.thread)
    requires Accepted(t, inc) && StageFor(w, inc, Check(t, inc).value, stage)
    ensures var steps := StepsOf(w, inc, Check(t, inc).value, stage);
            Next(w, Holding(s, j, inc.thread, IdsOfPlan(inc), IdsOfPlan(inc)),
                 Making(s, j, inc.thread, IdsOfPlan(inc), steps, 0), j, Planning(t, inc, stage))
  {
    hide Accepted, Check, StageFor, StepsOf, IdsOfPlan, RowOf, AdmitSelection;
    AcceptedFacts(t, inc);
    MainThread(t, inc);
    var steps := StepsOf(w, inc, Check(t, inc).value, stage);
    assert steps[..0] == [] && steps[0..] == steps;
  }

  lemma MainThread(t: Target, inc: Incoming)
    requires Accepted(t, inc)
    ensures inc.files != [] && Main(inc).thread == inc.thread && inc.thread in IdsOfPlan(inc)
  {
    hide Check, ValidFile, Joined, Distinct, CollisionFree, Lossless, InventoryOf;
    assert Main(inc) in inc.files;
  }

  predicate HasNone(s: System, j: nat) {
    j !in s.publishers && forall id | id in s.locks :: s.locks[id] != j
  }

  lemma LocksBack(s: System, j: nat, thread: string, ids: set<string>)
    requires HasNone(s, j) && forall id | id in ids :: id !in s.locks
    ensures var at := Holding(s, j, thread, ids, ids);
            s.locks == (map id | id in at.locks && at.locks[id] != j :: at.locks[id]) &&
            at.rows == s.rows && at.publishers.Keys == s.publishers.Keys + {j} &&
            forall k | k in s.publishers :: at.publishers[k] == s.publishers[k]
  {
  }

  lemma GoesAway(w: World, s: System, j: nat, thread: string, ids: set<string>, steps: seq<Step>)
    requires HasNone(s, j) && forall id | id in ids :: id !in s.locks
    ensures Next(w, Making(s, j, thread, ids, steps, |steps|), s.(tree := Apply(s.tree, steps)), j, Leave)
  {
    hide Apply, Holding;
    var at := Making(s, j, thread, ids, steps, |steps|);
    assert steps[..|steps|] == steps;
    LocksBack(s, j, thread, ids);
    assert s.publishers == at.publishers - {j};
  }

  /** Progress: in every reachable state in which nobody holds a lock of its plan, a publication that the destination
      accepts can be made to its end by its own steps alone, and leaves nothing behind but its files. */
  lemma PublicationGoes(w: World, run: seq<System>, j: nat, t: Target, inc: Incoming, stage: Stage)
    returns (tr: seq<System>)
    requires Run(w, run) && var s := run[|run| - 1];
             j !in s.publishers && t.w == w && t.tree == s.tree && t.sel == RowOf(s.rows, inc.thread) &&
             Accepted(t, inc) && StageFor(w, inc, Check(t, inc).value, stage) &&
             forall id | id in IdsOfPlan(inc) :: id !in s.locks
    ensures Alone(w, tr, j) && tr[0] == run[|run| - 1]
    ensures tr[|tr| - 1] ==
            run[|run| - 1].(tree := Apply(t.tree, StepsOf(w, inc, Check(t, inc).value, stage)))
  {
    hide Next, Accepted, Check, StageFor, StepsOf, IdsOfPlan, RowOf, Making, Holding, Alone, Happens, AdmitSelection;
    AcceptedFacts(t, inc);
    var s, ids := run[|run| - 1], IdsOfPlan(inc);
    var steps := StepsOf(w, inc, Check(t, inc).value, stage);
    NoLocks(w, run, j);
    MainThread(t, inc);
    tr := TakesAll(w, s, j, inc.thread, ids, ids);
    PlansNow(w, s, j, t, inc, stage);
    tr := OneMore(w, tr, j, Making(s, j, inc.thread, ids, steps, 0), Planning(t, inc, stage));
    tr := MakesAll(w, tr, s, j, inc.thread, ids, steps, |steps|);
    GoesAway(w, s, j, inc.thread, ids, steps);
    tr := OneMore(w, tr, j, s.(tree := Apply(s.tree, steps)), Leave);
  }

  /** Whoever is not there holds no lock. */
  lemma NoLocks(w: World, run: seq<System>, j: nat)
    requires Run(w, run) && j !in run[|run| - 1].publishers
    ensures HasNone(run[|run| - 1], j)
  {
    hide Happens, RestInOrder;
    RunInv(w, run, |run| - 1);
  }

  /** A publisher can fail or die wherever it is, with any of its steps unmade: storage and rows stay, its locks and no
      others become free. */
  lemma StopsAnywhere(w: World, s: System, j: nat) returns (s1: System)
    requires j in s.publishers
    ensures Next(w, s, s1, j, Leave) && s1.tree == s.tree && s1.rows == s.rows
    ensures s1.publishers == s.publishers - {j}
    ensures forall id :: id in s1.locks <==> id in s.locks && s.locks[id] != j
    ensures forall id | id in s1.locks :: s1.locks[id] == s.locks[id]
  {
    s1 := s.(locks := map id | id in s.locks && s.locks[id] != j :: s.locks[id], publishers := s.publishers - {j});
  }
}
