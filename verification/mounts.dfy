// Selecting and narrowing the mounts a transfer helper gets: inspectTarget and storageMounts of
// internal/sessiontransport/target.go.

module Mounts {
  import opened Model
  import opened Format

  datatype Kind = Volume | Bind

  /** A deployed mount. `place` is the daemon-side directory of a bind or the subpath of a volume; `usable` is the
      verdict of the checks on volume names, subpaths and bind options. */
  datatype Mount =
    Mount(kind: Kind, name: string, place: string, destination: string, rw: bool, nonRecursive: bool, usable: bool)

  datatype Refusal = BadTargets | NotMounted | Unusable | ReadOnly | CannotNarrow

  datatype Outcome<+T> = Done(value: T) | Refused(why: Refusal) {
    predicate IsFailure() {
      Refused?
    }

    function PropagateFailure<U>(): Outcome<U>
      requires Refused?
    {
      Refused(why)
    }

    function Extract(): T
      requires Done?
    {
      value
    }
  }

  // ---- paths ----

  /** The shape of a clean absolute path. */
  predicate Absolute(p: string) {
    Rooted(p) && NoEmptyPart(p)
  }

  predicate Rooted(p: string) {
    p != "" && p[0] == '/' && (|p| > 1 ==> p[|p| - 1] != '/')
  }

  predicate NoEmptyPart(p: string) {
    forall i | 0 <= i < |p| - 1 :: !(p[i] == '/' && p[i + 1] == '/')
  }

  function Slashed(root: string): string {
    if HasSuffix(root, "/") then root else root + "/"
  }

  /** contains: the child is the root or below it. */
  predicate Under(root: string, child: string) {
    root == child || HasPrefix(child, Slashed(root))
  }

  /** What of the child lies below the root. */
  function Below(root: string, child: string): string
    requires Under(root, child)
  {
    if root == child then "" else child[|Slashed(root)|..]
  }

  /** path.Dir and path.Base of a clean absolute path. */
  function Parent(p: string): string {
    var n := |p| - |AfterSlash(p)|;
    if n <= 1 || n > |p| then "/" else p[..n - 1]
  }

  predicate DatabaseFile(name: string) {
    HasPrefix(name, "state_") &&
    (HasSuffix(name, ".sqlite") || HasSuffix(name, ".sqlite-wal") || HasSuffix(name, ".sqlite-shm") ||
     HasSuffix(name, ".sqlite-journal"))
  }

  /** A database file, or its sidecar, directly in a directory. */
  predicate DatabaseIn(home: string, p: string) {
    Parent(p) == home && DatabaseFile(AfterSlash(p))
  }

  /** path.Join of clean parts. */
  function Join(a: string, b: string): string {
    if b == "" then a
    else if a == "" then b
    else Slashed(a) + b
  }

  lemma SlashedEnd(p: string)
    requires Rooted(p)
    ensures Slashed(p) == if p == "/" then "/" else p + "/"
    ensures Slashed(p)[|Slashed(p)| - 1] == '/'
  {
    if |p| == 1 {
      assert p == "/";
      assert p[0..] == "/";
    } else {
      assert p[|p| - 1..] == [p[|p| - 1]];
    }
  }

  lemma UnderTrans(a: string, b: string, c: string)
    requires Rooted(a) && Rooted(b) && Under(a, b) && Under(b, c)
    ensures Under(a, c)
  {
    SlashedEnd(a);
    SlashedEnd(b);
    if a != b && b != c {
      assert Slashed(a) <= b <= c;
    }
  }

  /** Of two directories above the same path the shorter is above the longer. */
  lemma UnderChain(a: string, b: string, c: string)
    requires Rooted(a) && Rooted(b) && Rooted(c) && Under(a, c) && Under(b, c) && |a| <= |b|
    ensures Under(a, b)
    ensures |a| == |b| ==> a == b
  {
    SlashedEnd(a);
    SlashedEnd(b);
    assert a == c[..|a|] && b == c[..|b|];
    if a != b {
      assert |Slashed(a)| <= |b|;
      assert Slashed(a) == c[..|Slashed(a)|] == b[..|Slashed(a)|];
    }
  }

  lemma UnderLonger(a: string, b: string)
    requires Rooted(a) && Under(a, b)
    ensures |a| <= |b| && (|a| == |b| ==> a == b)
  {
    SlashedEnd(a);
  }

  /** Below a rooted directory there is something that does not end in a slash. */
  lemma BelowEnd(a: string, b: string)
    requires Rooted(a) && Rooted(b) && Under(a, b) && a != b
    ensures b == Slashed(a) + Below(a, b) && Below(a, b) != ""
    ensures Below(a, b)[|Below(a, b)| - 1] != '/'
  {
    SlashedEnd(a);
    var x := Below(a, b);
    assert b == Slashed(a) + x;
    if x != "" {
      assert x[|x| - 1] == b[|b| - 1];
    }
  }

  lemma BelowChain(a: string, b: string, c: string)
    requires Rooted(a) && Rooted(b) && Rooted(c) && Under(a, b) && Under(b, c) && Under(a, c)
    ensures Below(a, c) == Join(Below(a, b), Below(b, c))
  {
    hide Slashed, Rooted;
    if a == b {
    } else if b == c {
    } else {
      BelowEnd(a, b);
      BelowEnd(b, c);
      BelowParts(a, b, c);
    }
  }

  lemma BelowParts(a: string, b: string, c: string)
    requires Rooted(a) && Rooted(b) && Under(a, b) && Under(b, c) && Under(a, c) && a != b && b != c
    requires b == Slashed(a) + Below(a, b) && c == Slashed(b) + Below(b, c) && Below(a, b) != "" && Below(b, c) != ""
    requires Below(a, b)[|Below(a, b)| - 1] != '/'
    ensures Below(a, c) == Join(Below(a, b), Below(b, c))
  {
    hide Below;
    var x, y := Below(a, b), Below(b, c);
    SlashedEnd(b);
    SlashedPlain(x);
    SlashedPlain(b);
    assert c == Slashed(a) + (x + "/" + y);
    BelowIs(a, c, x + "/" + y);
  }

  lemma BelowIs(a: string, c: string, rest: string)
    requires Under(a, c) && c == Slashed(a) + rest && rest != ""
    ensures Below(a, c) == rest
  {
  }

  /** A place ends in a slash only when it is the root. */
  predicate Tidy(p: string) {
    |p| > 1 ==> p[|p| - 1] != '/'
  }

  lemma SlashedPlain(s: string)
    requires s != "" && s[|s| - 1] != '/'
    ensures Slashed(s) == s + "/"
  {
    assert s[|s| - 1..] == [s[|s| - 1]];
  }

  lemma LastOf(a: string, x: string)
    requires x != ""
    ensures (a + x)[|a + x| - 1] == x[|x| - 1]
  {
  }

  lemma PlainEnd(x: string)
    requires Tidy(x) && x != "/" && x != ""
    ensures x[|x| - 1] != '/'
  {
    if |x| == 1 {
      assert x == [x[0]];
    }
  }

  lemma JoinAssociates(a: string, x: string, y: string)
    requires Tidy(a) && Tidy(x) && x != "/"
    ensures Join(a, Join(x, y)) == Join(Join(a, x), y)
    ensures Tidy(Join(a, x))
  {
    hide Slashed, Tidy;
    if x != "" {
      PlainEnd(x);
      SlashedPlain(x);
      JoinTidy(a, x);
      if a != "" && y != "" {
        LastOf(Slashed(a), x);
        SlashedPlain(Slashed(a) + x);
        assert Slashed(a) + (x + "/" + y) == (Slashed(a) + x) + "/" + y;
      }
    }
  }

  lemma JoinTidy(a: string, x: string)
    requires x != "" && x[|x| - 1] != '/'
    ensures Tidy(Join(a, x))
  {
    hide Slashed;
    LastOf(Slashed(a), x);
  }

  lemma BelowTidy(a: string, b: string)
    requires Rooted(a) && Rooted(b) && Under(a, b)
    ensures Tidy(Below(a, b)) && Below(a, b) != "/"
  {
    SlashedEnd(a);
    UnderLonger(a, b);
    if a != b {
      var x := Below(a, b);
      assert b == Slashed(a) + x;
      assert x != "" ==> x[|x| - 1] == b[|b| - 1];
    }
  }

  // ---- longest-prefix resolution ----

  /** The mount of the table a path resolves through: the deepest one above it. */
  function Deepest(table: seq<Mount>, p: string): (r: Option<Mount>)
    ensures r.Some? ==> r.value in table && Under(r.value.destination, p)
    ensures forall m | m in table && Under(m.destination, p) :: r.Some? && |m.destination| <= |r.value.destination|
  {
    if table == [] then None
    else
      var last := table[|table| - 1];
      var before := Deepest(table[..|table| - 1], p);
      if Under(last.destination, p) &&
        (before.None? || |last.destination| > |before.value.destination|) then Some(last) else before
  }

  /** Where in the daemon's storage a path of the workstation is. */
  datatype Location = Location(kind: Kind, name: string, place: string)

  function Through(m: Mount, p: string): Location
    requires Under(m.destination, p)
  {
    Location(m.kind, m.name, Join(m.place, Below(m.destination, p)))
  }

  function Located(table: seq<Mount>, p: string): Option<Location> {
    match Deepest(table, p)
    case None => None
    case Some(m) => Some(Through(m, p))
  }

  predicate Writable(table: seq<Mount>, p: string) {
    Deepest(table, p).Some? && Deepest(table, p).value.rw
  }

  /** A mount table Docker reports: clean absolute targets, none twice, tidy places. */
  predicate ValidTable(table: seq<Mount>) {
    (forall m | m in table :: Absolute(m.destination) && Tidy(m.place)) &&
    forall i, j | 0 <= i < j < |table| :: table[i].destination != table[j].destination
  }

  predicate ValidTargets(table: seq<Mount>) {
    (forall m | m in table :: Absolute(m.destination)) &&
    forall i, j | 0 <= i < j < |table| :: table[i].destination != table[j].destination
  }

  lemma SameDestination(table: seq<Mount>, m: Mount, n: Mount)
    requires ValidTargets(table) && m in table && n in table && m.destination == n.destination
    ensures m == n
  {
  }

  // ---- storageMounts ----

  /** What of the table is attached besides the mount above the home itself. */
  predicate Attached(base: Mount, home: string, history: bool, m: Mount) {
    m.destination != base.destination && Under(home, m.destination) && (history || DatabaseIn(home, m.destination))
  }

  function Select(all: seq<Mount>, base: Mount, home: string, history: bool): (r: seq<Mount>)
    ensures forall m :: m in r <==> m in all && Attached(base, home, history, m)
  {
    if all == [] then []
    else
      var before := Select(all[..|all| - 1], base, home, history);
      if Attached(base, home, history, all[|all| - 1]) then before + [all[|all| - 1]] else before
  }

  function StorageMounts(all: seq<Mount>, home: string, history: bool): Outcome<seq<Mount>> {
    if !ValidTargets(all) then Refused(BadTargets)
    else match Deepest(all, home)
      case None => Refused(NotMounted)
      case Some(base) =>
        var selected := [base] + Select(all, base, home, history);
        if exists m | m in selected :: !m.usable then Refused(Unusable) else Done(selected)
  }

  /** The first pass of storageMounts: clean targets, none twice, and the mount above the home. */
  method FindBase(all: seq<Mount>, home: string) returns (r: Outcome<Option<Mount>>)
    ensures r == if ValidTargets(all) then Done(Deepest(all, home)) else Refused(BadTargets)
  {
    hide Absolute, Under, ValidTargets, Destinations;
    var base: Option<Mount> := None;
    var seen: set<string> := {};
    NoTargets(all);
    for i := 0 to |all|
      invariant base == Deepest(all[..i], home) && seen == Destinations(all[..i]) && ValidTargets(all[..i])
    {
      assert all[..i + 1][..i] == all[..i];
      NextTarget(all, i);
      var m := all[i];
      if !Absolute(m.destination) || m.destination in seen {
        return Refused(BadTargets);
      }
      seen := seen + {m.destination};
      if Under(m.destination, home) && (base.None? || |m.destination| > |base.value.destination|) {
        base := Some(m);
      }
    }
    assert all[..|all|] == all;
    return Done(base);
  }

  function Destinations(table: seq<Mount>): set<string> {
    set m | m in table :: m.destination
  }

  lemma NoTargets(all: seq<Mount>)
    ensures Destinations(all[..0]) == {} && ValidTargets(all[..0])
  {
  }

  lemma NextTarget(all: seq<Mount>, i: nat)
    requires i < |all| && ValidTargets(all[..i])
    ensures Destinations(all[..i + 1]) == Destinations(all[..i]) + {all[i].destination}
    ensures var fine := Absolute(all[i].destination) && all[i].destination !in Destinations(all[..i]);
            (fine ==> ValidTargets(all[..i + 1])) && (!fine ==> !ValidTargets(all))
  {
    hide Absolute;
    assert all[..i + 1] == all[..i] + [all[i]];
    assert all[i] in all;
    if m :| m in all[..i] && m.destination == all[i].destination {
      var k :| 0 <= k < i && all[..i][k] == m;
      assert all[k].destination == all[i].destination;
    }
  }

  /** The second pass: what lies below the home. */
  method Attach(all: seq<Mount>, base: Mount, home: string, history: bool) returns (attached: seq<Mount>)
    ensures attached == Select(all, base, home, history)
  {
    hide Attached;
    attached := [];
    for i := 0 to |all|
      invariant attached == Select(all[..i], base, home, history)
    {
      assert all[..i + 1][..i] == all[..i];
      if Attached(base, home, history, all[i]) {
        attached := attached + [all[i]];
      }
    }
    assert all[..|all|] == all;
  }

  /** storageMounts. */
  method FindStorageMounts(all: seq<Mount>, home: string, history: bool) returns (r: Outcome<seq<Mount>>)
    ensures r == StorageMounts(all, home, history)
  {
    hide Select, Deepest, ValidTargets;
    var base := FindBase(all, home);
    if base.Refused? {
      return Refused(base.why);
    }
    if base.value.None? {
      return Refused(NotMounted);
    }
    var attached := Attach(all, base.value.value, home, history);
    var selected := [base.value.value] + attached;
    for i := 0 to |selected|
      invariant forall k | 0 <= k < i :: selected[k].usable
    {
      if !selected[i].usable {
        assert selected[i] in selected;
        return Refused(Unusable);
      }
    }
    return Done(selected);
  }

  // ---- the helper's mounts ----

  /** A separate metadata mount, narrowed to the SQLite home and kept writable only for an import. */
  function Narrowed(m: Mount, sqliteHome: string, writable: bool): Outcome<Mount> {
    if Under(m.destination, sqliteHome) && m.destination != sqliteHome then
      if m.kind == Bind && m.nonRecursive then Refused(CannotNarrow)
      else
        Done(m.(place := Join(m.place, Below(m.destination, sqliteHome)), destination := sqliteHome, rw := m.rw &&
          writable))
    else Done(m.(rw := m.rw && writable))
  }

  predicate AlreadyThere(mounts: seq<Mount>, m: Mount) {
    exists n | n in mounts :: n.destination == m.destination
  }

  function AddDatabase(mounts: seq<Mount>, database: seq<Mount>, sqliteHome: string,
                       writable: bool): Outcome<seq<Mount>>
    decreases |database|
  {
    if database == [] then Done(mounts)
    else if AlreadyThere(mounts, database[0]) then AddDatabase(mounts, database[1..], sqliteHome, writable)
    else
      var m :- Narrowed(database[0], sqliteHome, writable);
      AddDatabase(mounts + [m], database[1..], sqliteHome, writable)
  }

  /** The mounts a transfer helper is given; `writable` for an import. */
  function TargetMounts(deployed: seq<Mount>, codexHome: string, sqliteHome: string,
                        writable: bool): Outcome<seq<Mount>> {
    var mounts :- StorageMounts(deployed, codexHome, true);
    if writable && !mounts[0].rw then Refused(ReadOnly)
    else
      var database :- StorageMounts(deployed, sqliteHome, false);
      AddDatabase(mounts, database, sqliteHome, writable)
  }

  /** The mount part of inspectTarget. */
  method InspectMounts(deployed: seq<Mount>, codexHome: string, sqliteHome: string,
                       writable: bool) returns (r: Outcome<seq<Mount>>)
    ensures r == TargetMounts(deployed, codexHome, sqliteHome, writable)
  {
    hide StorageMounts, Narrowed;
    var history := FindStorageMounts(deployed, codexHome, true);
    if history.Refused? {
      return history;
    }
    var mounts := history.value;
    BaseFirst(deployed, codexHome, true);
    if writable && !mounts[0].rw {
      return Refused(ReadOnly);
    }
    var database := FindStorageMounts(deployed, sqliteHome, false);
    if database.Refused? {
      return database;
    }
    for i := 0 to |database.value|
      invariant AddDatabase(history.value, database.value, sqliteHome, writable) ==
                AddDatabase(mounts, database.value[i..], sqliteHome, writable)
    {
      assert database.value[i..][1..] == database.value[i + 1..];
      if AlreadyThere(mounts, database.value[i]) {
        continue;
      }
      var m := Narrowed(database.value[i], sqliteHome, writable);
      if m.Refused? {
        return Refused(m.why);
      }
      mounts := mounts + [m.value];
    }
    return Done(mounts);
  }

  lemma BaseFirst(all: seq<Mount>, home: string, history: bool)
    requires StorageMounts(all, home, history).Done?
    ensures var r := StorageMounts(all, home, history).value;
            r != [] && ValidTargets(all) && Deepest(all, home) == Some(r[0]) &&
            forall m :: m in r <==> m == r[0] || (m in all && Attached(r[0], home, history, m))
  {
    hide Absolute, Under, Attached;
  }

  // ---- what a mount table means is preserved ----

  /** No metadata mount ends up where another one is. */
  predicate Separate(database: seq<Mount>, sqliteHome: string, writable: bool) {
    forall i, j | 0 <= i < j < |database| ::
      var n := Narrowed(database[i], sqliteHome, writable);
      n.Done? ==> n.value.destination != database[j].destination
  }

  /** What TargetMounts adds: the history mounts as they are, and each metadata mount unless its target is there. */
  lemma {:induction false} AddedFacts(mounts: seq<Mount>, database: seq<Mount>, sqliteHome: string, writable: bool)
    requires AddDatabase(mounts, database, sqliteHome, writable).Done? && Separate(database, sqliteHome, writable)
    ensures var r := AddDatabase(mounts, database, sqliteHome, writable).value;
            (forall m | m in mounts :: m in r) &&
            (forall n | n in r && n !in mounts ::
               exists d | d in database :: !AlreadyThere(mounts, d) && Narrowed(d, sqliteHome, writable) == Done(n)) &&
            (forall d | d in database && !AlreadyThere(mounts, d) ::
               Narrowed(d, sqliteHome, writable).Done? && Narrowed(d, sqliteHome, writable).value in r)
    decreases |database|
  {
    hide Narrowed;
    if database != [] {
      var d, rest := database[0], database[1..];
      assert forall e :: e in database <==> e == d || e in rest;
      if AlreadyThere(mounts, d) {
        AddedFacts(mounts, rest, sqliteHome, writable);
      } else {
        var m := Narrowed(d, sqliteHome, writable).value;
        forall e | e in rest
          ensures AlreadyThere(mounts + [m], e) <==> AlreadyThere(mounts, e)
        {
          var j :| 0 <= j < |rest| && rest[j] == e;
          assert database[j + 1] == e;
        }
        AddedFacts(mounts + [m], rest, sqliteHome, writable);
        assert m in mounts + [m];
      }
    }
  }

  lemma DeepestUnique(table: seq<Mount>, p: string, m: Mount)
    requires m in table && Under(m.destination, p)
    requires forall n | n in table && Under(n.destination, p) :: n == m || |n.destination| < |m.destination|
    ensures Deepest(table, p) == Some(m)
  {
    hide Under;
  }

  /** Below or at the home, a path resolves through the mount above the home or one that is attached. */
  lemma ThroughAttached(deployed: seq<Mount>, home: string, p: string)
    requires ValidTargets(deployed) && Absolute(home) && Absolute(p) && Under(home, p) && Deepest(deployed, home).Some?
    ensures var base, m := Deepest(deployed, home).value, Deepest(deployed, p);
            m.Some? && (m.value == base || (Under(home, m.value.destination) &&
              m.value.destination != base.destination))
    ensures |Deepest(deployed, p).value.destination| <= |home| ==> Deepest(deployed, p) == Deepest(deployed, home)
  {
    hide Under, NoEmptyPart;
    var base := Deepest(deployed, home).value;
    UnderTrans(base.destination, home, p);
    var m := Deepest(deployed, p).value;
    if |m.destination| <= |home| {
      UnderChain(m.destination, home, p);
      UnderChain(m.destination, base.destination, home);
      SameDestination(deployed, m, base);
    } else {
      UnderChain(home, m.destination, p);
      UnderLonger(base.destination, home);
    }
  }

  predicate DistinctTargets(table: seq<Mount>) {
    forall i, j | 0 <= i < j < |table| :: table[i].destination != table[j].destination
  }

  lemma {:induction false} SelectDistinct(all: seq<Mount>, base: Mount, home: string, history: bool)
    requires DistinctTargets(all)
    ensures DistinctTargets(Select(all, base, home, history))
  {
    hide Attached;
    if all != [] {
      var init, last := all[..|all| - 1], all[|all| - 1];
      SelectDistinct(init, base, home, history);
      var before := Select(init, base, home, history);
      forall m | m in before
        ensures m.destination != last.destination
      {
        var k :| 0 <= k < |init| && init[k] == m;
      }
    }
  }

  /** A metadata mount other than the one above the SQLite home stays where it is. */
  lemma AttachedStays(deployed: seq<Mount>, sqliteHome: string, d: Mount)
    requires ValidTargets(deployed) && Absolute(sqliteHome) && Deepest(deployed, sqliteHome).Some? && d in deployed
    requires Attached(Deepest(deployed, sqliteHome).value, sqliteHome, false, d)
    ensures !Under(d.destination, sqliteHome) && d.destination != sqliteHome
  {
    hide NoEmptyPart, DatabaseIn, Rooted;
    var base := Deepest(deployed, sqliteHome).value;
    UnderLonger(sqliteHome, d.destination);
    UnderLonger(base.destination, sqliteHome);
    if Under(d.destination, sqliteHome) {
      UnderChain(d.destination, base.destination, sqliteHome);
    }
  }

  lemma BaseMoves(deployed: seq<Mount>, sqliteHome: string, d: Mount)
    requires ValidTargets(deployed) && Absolute(sqliteHome) && Deepest(deployed, sqliteHome).Some? && d in deployed
    requires Deepest(deployed, sqliteHome).value.destination != sqliteHome
    ensures d.destination != sqliteHome
  {
    hide NoEmptyPart, Rooted;
    var base := Deepest(deployed, sqliteHome).value;
    UnderLonger(base.destination, sqliteHome);
    if d.destination == sqliteHome {
      UnderChain(base.destination, d.destination, sqliteHome);
    }
  }

  lemma DatabaseSeparate(deployed: seq<Mount>, sqliteHome: string, writable: bool)
    requires ValidTargets(deployed) && Absolute(sqliteHome) && StorageMounts(deployed, sqliteHome, false).Done?
    ensures Separate(StorageMounts(deployed, sqliteHome, false).value, sqliteHome, writable)
  {
    hide NoEmptyPart, Rooted, Under, Attached, ValidTargets, Narrowed, Deepest, Select;
    var base := Deepest(deployed, sqliteHome).value;
    var rest := Select(deployed, base, sqliteHome, false);
    var database := [base] + rest;
    TargetsDistinct(deployed);
    SelectDistinct(deployed, base, sqliteHome, false);
    forall i, j | 0 <= i < j < |database|
      ensures var n := Narrowed(database[i], sqliteHome, writable);
              n.Done? ==> n.value.destination != database[j].destination
    {
      assert database[j] == rest[j - 1] && rest[j - 1] in rest;
      if i == 0 {
        BaseApart(deployed, sqliteHome, writable, rest[j - 1]);
      } else {
        assert database[i] == rest[i - 1] && rest[i - 1] in rest;
        AttachedStays(deployed, sqliteHome, rest[i - 1]);
        Unmoved(rest[i - 1], sqliteHome, writable);
      }
    }
  }

  lemma Unmoved(d: Mount, sqliteHome: string, writable: bool)
    requires !Under(d.destination, sqliteHome)
    ensures Narrowed(d, sqliteHome, writable).Done? &&
            Narrowed(d, sqliteHome, writable).value.destination == d.destination
  {
    hide Under;
  }

  lemma BaseApart(deployed: seq<Mount>, sqliteHome: string, writable: bool, m: Mount)
    requires ValidTargets(deployed) && Absolute(sqliteHome) && Deepest(deployed, sqliteHome).Some? && m in deployed
    requires Attached(Deepest(deployed, sqliteHome).value, sqliteHome, false, m)
    ensures var n := Narrowed(Deepest(deployed, sqliteHome).value, sqliteHome, writable);
            n.Done? ==> n.value.destination != m.destination
  {
    hide NoEmptyPart, Rooted, Under, ValidTargets, Attached, Join, Below;
    var base := Deepest(deployed, sqliteHome).value;
    ApartFrom(base, sqliteHome, m);
    if base.destination != sqliteHome {
      BaseMoves(deployed, sqliteHome, m);
    }
  }

  lemma TargetsDistinct(all: seq<Mount>)
    requires ValidTargets(all)
    ensures DistinctTargets(all)
  {
    hide Absolute;
  }

  lemma ApartFrom(base: Mount, home: string, m: Mount)
    requires Attached(base, home, false, m)
    ensures m.destination != base.destination
  {
    hide Under, DatabaseIn;
  }

  /** The history mounts of a table. */
  predicate HistoryMount(deployed: seq<Mount>, codexHome: string, m: Mount) {
    var base := Deepest(deployed, codexHome);
    base.Some? && m in deployed && (m == base.value || Attached(base.value, codexHome, true, m))
  }

  predicate DatabaseMount(deployed: seq<Mount>, sqliteHome: string, m: Mount) {
    var base := Deepest(deployed, sqliteHome);
    base.Some? && m in deployed && (m == base.value || Attached(base.value, sqliteHome, false, m))
  }

  /** What a helper is given, mount by mount. */
  lemma TargetFacts(deployed: seq<Mount>, codexHome: string, sqliteHome: string, writable: bool)
    requires Absolute(sqliteHome) && TargetMounts(deployed, codexHome, sqliteHome, writable).Done?
    ensures ValidTargets(deployed) && Deepest(deployed, codexHome).Some? && Deepest(deployed, sqliteHome).Some?
    ensures var r := TargetMounts(deployed, codexHome, sqliteHome, writable).value;
            (forall m | HistoryMount(deployed, codexHome, m) :: m in r) &&
            (forall n | n in r && !HistoryMount(deployed, codexHome, n) ::
               exists d | d in deployed :: DatabaseMount(deployed, sqliteHome, d) &&
                 !HistoryMount(deployed, codexHome, d) &&
                           Narrowed(d, sqliteHome, writable) == Done(n)) &&
            (forall d | DatabaseMount(deployed, sqliteHome, d) && !HistoryMount(deployed, codexHome, d) ::
               Narrowed(d, sqliteHome, writable).Done? && Narrowed(d, sqliteHome, writable).value in r)
  {
    hide NoEmptyPart, Rooted, Under, Attached, ValidTargets, StorageMounts, Narrowed, Separate;
    BaseFirst(deployed, codexHome, true);
    BaseFirst(deployed, sqliteHome, false);
    var mounts, database := StorageMounts(deployed, codexHome, true).value, StorageMounts(deployed, sqliteHome,
      false).value;
    DatabaseSeparate(deployed, sqliteHome, writable);
    AddedFacts(mounts, database, sqliteHome, writable);
    forall d | d in deployed
      ensures AlreadyThere(mounts, d) <==> HistoryMount(deployed, codexHome, d)
    {
      if n :| n in mounts && n.destination == d.destination {
        SameDestination(deployed, n, d);
      }
    }
  }

  /** A narrowed mount still resolves every path below the SQLite home to the same place, and is no more writable. */
  lemma NarrowedMeans(d: Mount, sqliteHome: string, writable: bool, p: string)
    requires Absolute(d.destination) && Absolute(sqliteHome) && Absolute(p) && Tidy(d.place)
    requires Under(d.destination, p) && Narrowed(d, sqliteHome, writable).Done?
    requires Under(d.destination, sqliteHome) ==> Under(sqliteHome, p)
    ensures var n := Narrowed(d, sqliteHome, writable).value;
            Under(n.destination, p) && Through(n, p) == Through(d, p) && (n.rw ==> d.rw && writable) &&
            |d.destination| <= |n.destination|
  {
    hide NoEmptyPart, Rooted, Slashed, Tidy, Below, Under;
    if Under(d.destination, sqliteHome) && d.destination != sqliteHome {
      UnderLonger(d.destination, sqliteHome);
      BelowChain(d.destination, sqliteHome, p);
      BelowTidy(d.destination, sqliteHome);
      JoinAssociates(d.place, Below(d.destination, sqliteHome), Below(sqliteHome, p));
    }
  }

  /** A mount that the Codex home's own does not include is never the one a path below the Codex home goes through. */
  lemma NarrowedAbove(deployed: seq<Mount>, sqliteHome: string, writable: bool, d: Mount, p: string, m: Mount)
    requires ValidTargets(deployed) && Absolute(sqliteHome) && Absolute(p)
    requires DatabaseMount(deployed, sqliteHome, d) && d != m && Deepest(deployed, p) == Some(m)
    requires Narrowed(d, sqliteHome, writable).Done? && Under(Narrowed(d, sqliteHome, writable).value.destination, p)
    ensures |Narrowed(d, sqliteHome, writable).value.destination| < |m.destination| ||
            (Deepest(deployed, sqliteHome) == Some(m) && Under(sqliteHome, p))
  {
    hide NoEmptyPart, Rooted, Slashed, Below, Under, Join, Attached;
    if Under(d.destination, sqliteHome) && d.destination != sqliteHome {
      MovedIsBase(deployed, sqliteHome, d);
      UnderTrans(d.destination, sqliteHome, p);
      if |m.destination| <= |sqliteHome| {
        UnderChain(m.destination, sqliteHome, p);
        UnderChain(d.destination, m.destination, p);
        SameDepth(deployed, d, m, p);
      }
    } else {
      SameDepth(deployed, d, m, p);
    }
  }

  lemma MovedIsBase(deployed: seq<Mount>, sqliteHome: string, d: Mount)
    requires ValidTargets(deployed) && Absolute(sqliteHome) && DatabaseMount(deployed, sqliteHome, d) &&
             Under(d.destination, sqliteHome)
    ensures Deepest(deployed, sqliteHome) == Some(d)
  {
    hide NoEmptyPart, Rooted, Under, Attached;
    if d != Deepest(deployed, sqliteHome).value {
      AttachedStays(deployed, sqliteHome, d);
    }
  }

  lemma SameDepth(deployed: seq<Mount>, d: Mount, m: Mount, p: string)
    requires ValidTargets(deployed) && Absolute(p) && d in deployed && Deepest(deployed, p) == Some(m) &&
             Under(d.destination, p)
    ensures |d.destination| < |m.destination| || d == m
  {
    hide NoEmptyPart, Rooted, Under;
    if |d.destination| == |m.destination| {
      UnderChain(d.destination, m.destination, p);
      SameDestination(deployed, d, m);
    }
  }

  /** A mount that is narrowed is the one above the SQLite home, and then that is not a history mount. */
  lemma NotTheBase(deployed: seq<Mount>, codexHome: string, sqliteHome: string, writable: bool, d: Mount, m: Mount)
    requires ValidTargets(deployed) && Absolute(sqliteHome) && DatabaseMount(deployed, sqliteHome, d)
    requires !HistoryMount(deployed, codexHome, d) && HistoryMount(deployed, codexHome, m) &&
             Narrowed(d, sqliteHome, writable).Done?
    ensures Deepest(deployed, sqliteHome) == Some(m) ==>
            Narrowed(d, sqliteHome, writable).value.destination == d.destination
  {
    hide NoEmptyPart, Rooted, Under, Attached, Join, Below;
    if Under(d.destination, sqliteHome) {
      MovedIsBase(deployed, sqliteHome, d);
    }
  }

  lemma NarrowedShallower(deployed: seq<Mount>, codexHome: string, sqliteHome: string, writable: bool, p: string,
                          m: Mount, d: Mount)
    requires ValidTargets(deployed) && Absolute(sqliteHome) && Absolute(p) && Deepest(deployed, p) == Some(m)
    requires HistoryMount(deployed, codexHome, m) && DatabaseMount(deployed, sqliteHome, d) &&
             !HistoryMount(deployed, codexHome, d)
    requires Narrowed(d, sqliteHome, writable).Done? && Under(Narrowed(d, sqliteHome, writable).value.destination, p)
    ensures |Narrowed(d, sqliteHome, writable).value.destination| < |m.destination|
  {
    hide NoEmptyPart, Rooted, Under, Attached, Narrowed;
    NarrowedAbove(deployed, sqliteHome, writable, d, p, m);
    NotTheBase(deployed, codexHome, sqliteHome, writable, d, m);
    if Deepest(deployed, sqliteHome) == Some(m) {
      SameDepth(deployed, d, m, p);
    }
  }

  /** Every path below the Codex home resolves through the very mount it is deployed through. */
  lemma HistoryPreserved(deployed: seq<Mount>, codexHome: string, sqliteHome: string, writable: bool, p: string)
    requires Absolute(codexHome) && Absolute(sqliteHome) && Absolute(p) && Under(codexHome, p)
    requires TargetMounts(deployed, codexHome, sqliteHome, writable).Done?
    ensures var r := TargetMounts(deployed, codexHome, sqliteHome, writable).value;
            Deepest(r, p) == Deepest(deployed, p) && Deepest(r, p).Some?
  {
    hide *;
    TargetFacts(deployed, codexHome, sqliteHome, writable);
    ThroughAttached(deployed, codexHome, p);
    var r, m := TargetMounts(deployed, codexHome, sqliteHome, writable).value, Deepest(deployed, p).value;
    HistoryMountOf(deployed, codexHome, m);
    forall n | n in r && Under(n.destination, p)
      ensures n == m || |n.destination| < |m.destination|
    {
      if HistoryMount(deployed, codexHome, n) {
        HistoryDeployed(deployed, codexHome, n);
        SameDepth(deployed, n, m, p);
      } else {
        var d :| d in deployed && DatabaseMount(deployed, sqliteHome, d) && !HistoryMount(deployed, codexHome, d) &&
                 Narrowed(d, sqliteHome, writable) == Done(n);
        NarrowedShallower(deployed, codexHome, sqliteHome, writable, p, m, d);
      }
    }
    DeepestUnique(r, p, m);
  }

  lemma HistoryMountOf(deployed: seq<Mount>, codexHome: string, m: Mount)
    requires Deepest(deployed, codexHome).Some? && m in deployed
    requires var base := Deepest(deployed, codexHome).value;
             m == base || (Under(codexHome, m.destination) && m.destination != base.destination)
    ensures HistoryMount(deployed, codexHome, m)
  {
    hide Under;
  }

  lemma HistoryDeployed(deployed: seq<Mount>, codexHome: string, m: Mount)
    requires HistoryMount(deployed, codexHome, m)
    ensures m in deployed
  {
    hide Attached;
  }

  // ---- database files ----

  lemma {:induction false} SlashBefore(p: string)
    requires '/' in p
    ensures |AfterSlash(p)| < |p| && p[|p| - |AfterSlash(p)| - 1] == '/'
  {
    if p[|p| - 1] != '/' {
      var q := p[..|p| - 1];
      assert p == q + [p[|p| - 1]];
      SlashBefore(q);
    }
  }

  lemma CutAt(p: string, n: nat)
    requires 1 < n <= |p| && p[n - 1] == '/' && p[n - 2] != '/'
    ensures Slashed(p[..n - 1]) == p[..n]
  {
    SlashedPlain(p[..n - 1]);
    assert p[..n] == p[..n - 1] + [p[n - 1]];
  }

  /** A clean path is its directory, a slash and its last part. */
  lemma ParentParts(p: string)
    requires Absolute(p) && p != "/"
    ensures p == Slashed(Parent(p)) + AfterSlash(p) && '/' !in AfterSlash(p)
  {
    hide Slashed, AfterSlash, HasSuffix;
    SlashBefore(p);
    AfterSlashTail(p);
    NoSlashAfterSlash(p);
    var n := |p| - |AfterSlash(p)|;
    assert p == p[..n] + AfterSlash(p);
    if n == 1 {
      SlashedEnd("/");
      assert p[..1] == "/";
    } else {
      assert p[n - 2 + 1] == '/';
      CutAt(p, n);
    }
  }

  /** Between a directory and a file directly in it there is no other path. */
  lemma DirectlyIn(home: string, m: string, p: string)
    requires Absolute(home) && Absolute(m) && Absolute(p) && Parent(p) == home && p != "/"
    requires Under(home, m) && Under(m, p) && m != home
    ensures m == p
  {
    hide NoEmptyPart, Parent;
    ParentParts(p);
    SlashedEnd(home);
    SlashedEnd(m);
    NoSlashInside(Slashed(home), AfterSlash(p), p, m);
    SlashFollows(m, p);
  }

  lemma NoSlashInside(a: string, b: string, p: string, m: string)
    requires p == a + b && '/' !in b && a <= m <= p
    ensures m != p ==> p[|m|] != '/'
  {
    if m != p {
      assert p[|m|] == b[|m| - |a|];
    }
  }

  lemma SlashFollows(m: string, p: string)
    requires Rooted(m) && Under(m, p) && m != "/"
    ensures m != p ==> |m| < |p| && p[|m|] == '/'
  {
    SlashedEnd(m);
    if m != p {
      assert p[|m|] == Slashed(m)[|m|];
    }
  }

  lemma InDirectory(home: string, p: string)
    requires Absolute(p) && p != "/" && Parent(p) == home
    ensures Under(home, p)
  {
    hide NoEmptyPart, Parent;
    ParentParts(p);
  }

  /** A database file resolves through the mount above the SQLite home or one of its own. */
  lemma ThroughDatabase(deployed: seq<Mount>, sqliteHome: string, p: string)
    requires ValidTargets(deployed) && Absolute(sqliteHome) && Absolute(p) && DatabaseIn(sqliteHome, p)
    requires Deepest(deployed, sqliteHome).Some?
    ensures p != "/" && Under(sqliteHome, p) && Deepest(deployed, p).Some?
    ensures DatabaseMount(deployed, sqliteHome, Deepest(deployed, p).value)
  {
    hide NoEmptyPart, Rooted, Under, Parent;
    assert p != "/" by {
      NoDatabaseRoot();
    }
    InDirectory(sqliteHome, p);
    ThroughAttached(deployed, sqliteHome, p);
    var m := Deepest(deployed, p).value;
    if m != Deepest(deployed, sqliteHome).value {
      AttachedStaysBelow(deployed, sqliteHome, m);
      DirectlyIn(sqliteHome, m.destination, p);
    }
  }

  lemma NoDatabaseRoot()
    ensures !DatabaseFile(AfterSlash("/"))
  {
  }

  lemma AttachedStaysBelow(deployed: seq<Mount>, sqliteHome: string, d: Mount)
    requires ValidTargets(deployed) && Absolute(sqliteHome) && Deepest(deployed, sqliteHome).Some? && d in deployed
    requires Under(sqliteHome, d.destination) && d.destination != Deepest(deployed, sqliteHome).value.destination
    ensures d.destination != sqliteHome
  {
    hide NoEmptyPart, Rooted;
    var base := Deepest(deployed, sqliteHome).value;
    if d.destination == sqliteHome {
      UnderLonger(base.destination, sqliteHome);
      UnderChain(base.destination, d.destination, sqliteHome);
    }
  }

  /** No other mount of the helper stands between a database file and its own. */
  lemma DatabaseShallower(deployed: seq<Mount>, sqliteHome: string, writable: bool, p: string, m: Mount, d: Mount)
    requires ValidTargets(deployed) && Absolute(sqliteHome) && Absolute(p) && Deepest(deployed, p) == Some(m) &&
             Under(sqliteHome, p)
    requires DatabaseMount(deployed, sqliteHome, m) && DatabaseMount(deployed, sqliteHome, d) && d != m
    requires Narrowed(d, sqliteHome, writable).Done? && Under(Narrowed(d, sqliteHome, writable).value.destination, p)
    ensures |Narrowed(d, sqliteHome, writable).value.destination| < |m.destination|
  {
    hide NoEmptyPart, Rooted, Under, Join, Below, DatabaseIn;
    if Under(d.destination, sqliteHome) && d.destination != sqliteHome {
      MovedIsBase(deployed, sqliteHome, d);
      assert Attached(d, sqliteHome, false, m);
      AttachedStays(deployed, sqliteHome, m);
      UnderLonger(sqliteHome, m.destination);
    } else {
      SameDepth(deployed, d, m, p);
    }
  }

  lemma PassesHome(deployed: seq<Mount>, sqliteHome: string, p: string, m: Mount)
    requires ValidTargets(deployed) && DatabaseMount(deployed, sqliteHome, m) && Under(sqliteHome, p)
    ensures Under(m.destination, sqliteHome) ==> Under(sqliteHome, p)
    ensures Absolute(m.destination) && m in deployed
  {
    hide Absolute, Under, Attached;
  }

  /** Every database file and sidecar directly in the SQLite home is in the same place of the daemon's storage as
      deployed, and writable only if it was. */
  lemma DatabasePreserved(deployed: seq<Mount>, codexHome: string, sqliteHome: string, writable: bool, p: string)
    requires ValidTable(deployed) && Absolute(codexHome) && Absolute(sqliteHome) && Absolute(p) &&
             DatabaseIn(sqliteHome, p)
    requires TargetMounts(deployed, codexHome, sqliteHome, writable).Done?
    ensures var r := TargetMounts(deployed, codexHome, sqliteHome, writable).value;
            Located(r, p) == Located(deployed, p) && Located(r, p).Some? && (Writable(r, p) ==> Writable(deployed, p))
  {
    hide *;
    TargetFacts(deployed, codexHome, sqliteHome, writable);
    ThroughDatabase(deployed, sqliteHome, p);
    var r, m := TargetMounts(deployed, codexHome, sqliteHome, writable).value, Deepest(deployed, p).value;
    PassesHome(deployed, sqliteHome, p, m);
    if HistoryMount(deployed, codexHome, m) {
      forall n | n in r && Under(n.destination, p)
        ensures n == m || |n.destination| < |m.destination|
      {
        ShallowerOrSame(deployed, codexHome, sqliteHome, writable, p, m, m, n);
      }
      DeepestUnique(r, p, m);
      SameMount(deployed, r, p);
    } else {
      TidyPlace(deployed, m);
      NarrowedMeans(m, sqliteHome, writable, p);
      var k := Narrowed(m, sqliteHome, writable).value;
      forall n | n in r && Under(n.destination, p)
        ensures n == k || |n.destination| < |k.destination|
      {
        ShallowerOrSame(deployed, codexHome, sqliteHome, writable, p, m, k, n);
      }
      DeepestUnique(r, p, k);
      SameLocation(deployed, r, p, m, k);
    }
  }

  lemma ShallowerOrSame(deployed: seq<Mount>, codexHome: string, sqliteHome: string, writable: bool, p: string,
                        m: Mount, k: Mount,
                        n: Mount)
    requires Absolute(sqliteHome) && Absolute(p) && TargetMounts(deployed, codexHome, sqliteHome, writable).Done?
    requires Deepest(deployed, p) == Some(m) && Under(sqliteHome, p) && DatabaseMount(deployed, sqliteHome, m)
    requires n in TargetMounts(deployed, codexHome, sqliteHome, writable).value && Under(n.destination, p)
    requires if HistoryMount(deployed, codexHome, m) then k == m
             else Narrowed(m, sqliteHome, writable) == Done(k) && |m.destination| <= |k.destination|
    ensures n == k || |n.destination| < |k.destination|
  {
    hide *;
    TargetFacts(deployed, codexHome, sqliteHome, writable);
    if HistoryMount(deployed, codexHome, n) {
      HistoryDeployed(deployed, codexHome, n);
      SameDepth(deployed, n, m, p);
    } else {
      var d :| d in deployed && DatabaseMount(deployed, sqliteHome, d) && !HistoryMount(deployed, codexHome, d) &&
               Narrowed(d, sqliteHome, writable) == Done(n);
      if d != m {
        DatabaseShallower(deployed, sqliteHome, writable, p, m, d);
      }
    }
  }

  lemma SameMount(deployed: seq<Mount>, r: seq<Mount>, p: string)
    requires Deepest(r, p) == Deepest(deployed, p) && Deepest(r, p).Some?
    ensures Located(r, p) == Located(deployed, p) && Located(r, p).Some? && (Writable(r, p) ==> Writable(deployed, p))
  {
    hide Through, Under;
  }

  lemma SameLocation(deployed: seq<Mount>, r: seq<Mount>, p: string, m: Mount, k: Mount)
    requires Deepest(deployed, p) == Some(m) && Deepest(r, p) == Some(k) && Through(k, p) == Through(m, p) && (k.rw ==>
             m.rw)
    ensures Located(r, p) == Located(deployed, p) && Located(r, p).Some? && (Writable(r, p) ==> Writable(deployed, p))
  {
    hide Through, Under;
  }

  lemma TidyPlace(deployed: seq<Mount>, m: Mount)
    requires ValidTable(deployed) && m in deployed
    ensures Tidy(m.place)
  {
    hide Tidy, Absolute;
  }

  /** The transformation preserves what the deployed table means: each path at or below the Codex home, and each
      database file directly in the SQLite home, is found at the same place of the daemon's storage, and is writable
      only if it was. */
  lemma MeaningPreserved(deployed: seq<Mount>, codexHome: string, sqliteHome: string, writable: bool, p: string)
    requires ValidTable(deployed) && Absolute(codexHome) && Absolute(sqliteHome) && Absolute(p)
    requires Under(codexHome, p) || DatabaseIn(sqliteHome, p)
    requires TargetMounts(deployed, codexHome, sqliteHome, writable).Done?
    ensures var r := TargetMounts(deployed, codexHome, sqliteHome, writable).value;
            Located(r, p) == Located(deployed, p) && Located(r, p).Some? && (Writable(r, p) ==> Writable(deployed, p))
  {
    hide *;
    if Under(codexHome, p) {
      HistoryPreserved(deployed, codexHome, sqliteHome, writable, p);
      SameMount(deployed, TargetMounts(deployed, codexHome, sqliteHome, writable).value, p);
    } else {
      DatabasePreserved(deployed, codexHome, sqliteHome, writable, p);
    }
  }
}
