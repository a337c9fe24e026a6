// What of a workstation's storage a transfer helper is given, and when none: inspectTarget and storageMounts of
// internal/sessiontransport/target.go.

module Exposure {
  import opened Model
  import opened Format
  import opened Mounts

  /** The deepest mount above a home. */
  predicate CoversHome(deployed: seq<Mount>, home: string, m: Mount) {
    m in deployed && Under(m.destination, home) &&
    forall k | k in deployed && Under(k.destination, home) :: |k.destination| <= |m.destination|
  }

  /** The mount the Codex home is in, and every mount at or below it. */
  predicate IsHistory(deployed: seq<Mount>, codexHome: string, m: Mount) {
    CoversHome(deployed, codexHome, m) || (m in deployed && Under(codexHome, m.destination))
  }

  /** The mount the SQLite home is in, and mounts of single database files directly in it. */
  predicate IsDatabase(deployed: seq<Mount>, sqliteHome: string, m: Mount) {
    CoversHome(deployed, sqliteHome, m) || (m in deployed && DatabaseIn(sqliteHome, m.destination))
  }

  /** A metadata mount as the helper gets it: at the SQLite home where it covers that, with the storage that is there,
      and writable only for an import. */
  predicate Given(sqliteHome: string, writable: bool, d: Mount, n: Mount) {
    n.kind == d.kind && n.name == d.name && n.nonRecursive == d.nonRecursive && n.usable == d.usable &&
    n.rw == (d.rw && writable) &&
    if Under(d.destination, sqliteHome)
    then n.destination == sqliteHome && n.place == Through(d, sqliteHome).place
    else n.destination == d.destination && n.place == d.place
  }

  /** A covering mount above the SQLite home that could enter a submount the workstation leaves out. */
  predicate Uncuttable(sqliteHome: string, d: Mount) {
    d.kind == Bind && d.nonRecursive && Under(d.destination, sqliteHome) && d.destination != sqliteHome
  }

  /** Where a mount has a path: at its own place, and below it as below its destination. */
  lemma ThroughExactly(m: Mount, p: string, rest: string)
    requires Absolute(m.destination) && Tidy(m.place) && rest != ""
    requires p == (if m.destination == "/" then "" else m.destination) + "/" + rest
    ensures Through(m, m.destination) == Location(m.kind, m.name, m.place)
    ensures Under(m.destination, p)
    ensures Through(m, p) ==
            Location(m.kind, m.name, if m.place == "" then rest
                                     else (if m.place == "/" then "" else m.place) + "/" + rest)
  {
    hide NoEmptyPart, HasSuffix;
    SlashedEnd(m.destination);
    assert p == Slashed(m.destination) + rest;
    assert p[|Slashed(m.destination)|..] == rest;
    if m.place != "" {
      TidyEnd(m.place);
    }
  }

  lemma TidyEnd(place: string)
    requires Tidy(place) && place != ""
    ensures Slashed(place) == (if place == "/" then "" else place) + "/"
  {
  }

  // ---- the two selections ----

  lemma CoverUnique(deployed: seq<Mount>, home: string, m: Mount)
    requires ValidTargets(deployed) && Absolute(home)
    ensures CoversHome(deployed, home, m) <==> Deepest(deployed, home) == Some(m)
  {
    hide NoEmptyPart, Rooted, Under;
    if CoversHome(deployed, home, m) {
      var base := Deepest(deployed, home).value;
      UnderChain(m.destination, base.destination, home);
      SameDestination(deployed, m, base);
    }
  }

  lemma HistoryExactly(deployed: seq<Mount>, codexHome: string, m: Mount)
    requires ValidTargets(deployed) && Absolute(codexHome) && Deepest(deployed, codexHome).Some?
    ensures HistoryMount(deployed, codexHome, m) <==> IsHistory(deployed, codexHome, m)
  {
    hide Absolute, Under;
    CoverUnique(deployed, codexHome, m);
    var base := Deepest(deployed, codexHome).value;
    if m in deployed && m.destination == base.destination {
      SameDestination(deployed, m, base);
    }
  }

  lemma DatabaseExactly(deployed: seq<Mount>, sqliteHome: string, m: Mount)
    requires ValidTargets(deployed) && Absolute(sqliteHome) && Deepest(deployed, sqliteHome).Some?
    ensures DatabaseMount(deployed, sqliteHome, m) <==> IsDatabase(deployed, sqliteHome, m)
  {
    hide Absolute, Under, DatabaseIn;
    CoverUnique(deployed, sqliteHome, m);
    var base := Deepest(deployed, sqliteHome).value;
    if m in deployed && m.destination == base.destination {
      SameDestination(deployed, m, base);
    }
    if m in deployed && DatabaseIn(sqliteHome, m.destination) {
      FileBelow(deployed, sqliteHome, m);
    }
  }

  lemma FileBelow(deployed: seq<Mount>, sqliteHome: string, m: Mount)
    requires ValidTargets(deployed) && m in deployed && DatabaseIn(sqliteHome, m.destination)
    ensures Under(sqliteHome, m.destination)
  {
    hide Rooted, NoEmptyPart, Under, Parent;
    NoDatabaseRoot();
    InDirectory(sqliteHome, m.destination);
  }

  lemma FileNotAbove(deployed: seq<Mount>, sqliteHome: string, d: Mount)
    requires ValidTargets(deployed) && Absolute(sqliteHome) && DatabaseMount(deployed, sqliteHome, d)
    ensures Under(d.destination, sqliteHome) <==> CoversHome(deployed, sqliteHome, d)
  {
    hide NoEmptyPart, Rooted, Under, Attached;
    CoverUnique(deployed, sqliteHome, d);
    if Under(d.destination, sqliteHome) {
      MovedIsBase(deployed, sqliteHome, d);
    }
  }

  lemma NarrowedExactly(sqliteHome: string, writable: bool, d: Mount, n: Mount)
    ensures Narrowed(d, sqliteHome, writable) == Done(n) <==>
            Given(sqliteHome, writable, d, n) && !Uncuttable(sqliteHome, d)
  {
    hide Slashed, HasPrefix;
  }

  // ---- what the helper is given ----

  /** The mounts of a helper, exactly: the history mounts as they are deployed, and each metadata mount that is not one
      of them, cut to the SQLite home. */
  lemma GivenExactly(deployed: seq<Mount>, codexHome: string, sqliteHome: string, writable: bool, n: Mount)
    requires Absolute(codexHome) && Absolute(sqliteHome)
    requires TargetMounts(deployed, codexHome, sqliteHome, writable).Done?
    ensures n in TargetMounts(deployed, codexHome, sqliteHome, writable).value <==>
            IsHistory(deployed, codexHome, n) ||
            exists d :: IsDatabase(deployed, sqliteHome, d) && !IsHistory(deployed, codexHome, d) &&
                        Given(sqliteHome, writable, d, n)
  {
    hide *;
    TargetFacts(deployed, codexHome, sqliteHome, writable);
    forall m
      ensures HistoryMount(deployed, codexHome, m) <==> IsHistory(deployed, codexHome, m)
      ensures DatabaseMount(deployed, sqliteHome, m) <==> IsDatabase(deployed, sqliteHome, m)
      ensures Narrowed(m, sqliteHome, writable) == Done(n) <==>
              Given(sqliteHome, writable, m, n) && !Uncuttable(sqliteHome, m)
    {
      HistoryExactly(deployed, codexHome, m);
      DatabaseExactly(deployed, sqliteHome, m);
      NarrowedExactly(sqliteHome, writable, m, n);
    }
    forall d | DatabaseMount(deployed, sqliteHome, d) && !HistoryMount(deployed, codexHome, d)
      ensures !Uncuttable(sqliteHome, d)
    {
      NarrowedExactly(sqliteHome, writable, d, Narrowed(d, sqliteHome, writable).value);
    }
  }

  /** Least exposure: whatever path resolves for the helper lies under a history mount of the deployment or under the
      SQLite home, and without an import only under a history mount anything can be written. */
  lemma NothingElse(deployed: seq<Mount>, codexHome: string, sqliteHome: string, writable: bool, p: string)
    requires Absolute(codexHome) && Absolute(sqliteHome)
    requires TargetMounts(deployed, codexHome, sqliteHome, writable).Done?
    ensures var r := TargetMounts(deployed, codexHome, sqliteHome, writable).value;
            (Located(r, p).Some? ==>
               (exists h :: IsHistory(deployed, codexHome, h) && Under(h.destination, p)) || Under(sqliteHome, p)) &&
            (Writable(r, p) && !writable ==>
               exists h :: IsHistory(deployed, codexHome, h) && h.rw && Under(h.destination, p))
  {
    hide Absolute, ValidTargets, Under, TargetMounts, Through, IsHistory, IsDatabase;
    var r := TargetMounts(deployed, codexHome, sqliteHome, writable).value;
    if Deepest(r, p).Some? {
      var n := Deepest(r, p).value;
      GivenExactly(deployed, codexHome, sqliteHome, writable, n);
      if !IsHistory(deployed, codexHome, n) {
        var d :| IsDatabase(deployed, sqliteHome, d) && !IsHistory(deployed, codexHome, d) &&
                 Given(sqliteHome, writable, d, n);
        MetadataBelow(deployed, codexHome, sqliteHome, writable, d, n, p);
      }
    }
  }

  lemma MetadataBelow(deployed: seq<Mount>, codexHome: string, sqliteHome: string, writable: bool, d: Mount, n: Mount,
                      p: string)
    requires Absolute(codexHome) && Absolute(sqliteHome)
    requires TargetMounts(deployed, codexHome, sqliteHome, writable).Done?
    requires IsDatabase(deployed, sqliteHome, d) && Given(sqliteHome, writable, d, n) && Under(n.destination, p)
    ensures Under(sqliteHome, p) && (n.rw ==> writable)
  {
    hide NoEmptyPart, Rooted, Under, TargetMounts, Through, DatabaseIn;
    TargetFacts(deployed, codexHome, sqliteHome, writable);
    if !Under(d.destination, sqliteHome) {
      FileBelow(deployed, sqliteHome, d);
      UnderTrans(sqliteHome, d.destination, p);
    }
  }

  // ---- which database files ----

  /** A file of the directory, by its parts. */
  predicate NamesDatabase(sqliteHome: string, name: string, side: string, p: string) {
    '/' !in name && side in ["", "-wal", "-shm", "-journal"] &&
    p == (if sqliteHome == "/" then "" else sqliteHome) + "/state_" + name + ".sqlite" + side
  }

  lemma SuffixCut(s: string, side: string) returns (name: string)
    requires HasPrefix(s, "state_") && HasSuffix(s, ".sqlite" + side)
    ensures s == "state_" + name + ".sqlite" + side
  {
    var n := |s| - 7 - |side|;
    assert s[n..] == ".sqlite" + side;
    assert s[n] == '.' && s[..6] == "state_";
    name := s[6..n];
  }

  lemma FileNamed(s: string) returns (name: string, side: string)
    requires DatabaseFile(s)
    ensures side in ["", "-wal", "-shm", "-journal"] && s == "state_" + name + ".sqlite" + side
  {
    side := if HasSuffix(s, ".sqlite") then ""
            else if HasSuffix(s, ".sqlite-wal") then "-wal"
            else if HasSuffix(s, ".sqlite-shm") then "-shm"
            else "-journal";
    assert ".sqlite" + "" == ".sqlite" && ".sqlite" + "-wal" == ".sqlite-wal" &&
           ".sqlite" + "-shm" == ".sqlite-shm" && ".sqlite" + "-journal" == ".sqlite-journal";
    name := SuffixCut(s, side);
  }

  lemma NamedFile(s: string, name: string, side: string)
    requires side in ["", "-wal", "-shm", "-journal"] && s == "state_" + name + ".sqlite" + side
    ensures DatabaseFile(s)
  {
    assert s[|s| - 7 - |side|..] == ".sqlite" + side;
    assert ".sqlite" + "" == ".sqlite" && ".sqlite" + "-wal" == ".sqlite-wal" &&
           ".sqlite" + "-shm" == ".sqlite-shm" && ".sqlite" + "-journal" == ".sqlite-journal";
  }

  /** A name directly in a directory. */
  lemma NameIn(home: string, n: string, p: string)
    requires Absolute(home) && '/' !in n && n != "" && p == (if home == "/" then "" else home) + "/" + n
    ensures AfterSlash(p) == n && Parent(p) == home
  {
    hide NoEmptyPart, AfterSlash;
    AfterSlashJoin(if home == "/" then "" else home, n);
  }

  lemma FileByParts(sqliteHome: string, p: string) returns (name: string, side: string)
    requires Absolute(sqliteHome) && Absolute(p) && DatabaseIn(sqliteHome, p)
    ensures NamesDatabase(sqliteHome, name, side, p)
  {
    hide NoEmptyPart, Rooted, Parent, AfterSlash, DatabaseFile, HasSuffix, Slashed;
    NoDatabaseRoot();
    ParentParts(p);
    SlashedEnd(sqliteHome);
    name, side := FileNamed(AfterSlash(p));
    PlainInside("state_", name, ".sqlite" + side);
    assert AfterSlash(p) == "state_" + name + (".sqlite" + side);
    BehindSlash(sqliteHome, p, name, side);
  }

  lemma PlainInside(a: string, name: string, b: string)
    ensures '/' !in a + name + b ==> '/' !in name
  {
    assert forall c | c in name :: c in a + name + b;
  }

  lemma BehindSlash(home: string, p: string, name: string, side: string)
    requires p == (if home == "/" then "/" else home + "/") + ("state_" + name + (".sqlite" + side))
    ensures p == (if home == "/" then "" else home) + "/state_" + name + ".sqlite" + side
  {
  }

  lemma PartsOfFile(sqliteHome: string, p: string, name: string, side: string)
    requires Absolute(sqliteHome) && Absolute(p) && NamesDatabase(sqliteHome, name, side, p)
    ensures DatabaseIn(sqliteHome, p)
  {
    hide NoEmptyPart, Rooted, Parent, AfterSlash, DatabaseFile, HasSuffix, Slashed;
    var n := "state_" + name + ".sqlite" + side;
    NamedFile(n, name, side);
    assert p == (if sqliteHome == "/" then "" else sqliteHome) + "/" + n;
    assert '/' !in n;
    NameIn(sqliteHome, n, p);
  }

  /** Only these can be attached by mounts of their own: state_*.sqlite directly in the SQLite home and its -wal, -shm
      and -journal. */
  lemma DatabaseNames(sqliteHome: string, p: string)
    requires Absolute(sqliteHome) && Absolute(p)
    ensures DatabaseIn(sqliteHome, p) <==> exists name, side :: NamesDatabase(sqliteHome, name, side, p)
  {
    hide *;
    if DatabaseIn(sqliteHome, p) {
      var name, side := FileByParts(sqliteHome, p);
    }
    forall name, side | NamesDatabase(sqliteHome, name, side, p)
      ensures DatabaseIn(sqliteHome, p)
    {
      PartsOfFile(sqliteHome, p, name, side);
    }
  }

  // ---- when it is given any ----

  lemma {:induction false} AddDone(mounts: seq<Mount>, database: seq<Mount>, sqliteHome: string, writable: bool)
    requires Separate(database, sqliteHome, writable)
    ensures AddDatabase(mounts, database, sqliteHome, writable).Done? <==>
            forall d | d in database && !AlreadyThere(mounts, d) :: Narrowed(d, sqliteHome, writable).Done?
    decreases |database|
  {
    hide Narrowed;
    if database != [] {
      var d, rest := database[0], database[1..];
      assert forall e :: e in database <==> e == d || e in rest;
      if AlreadyThere(mounts, d) {
        AddDone(mounts, rest, sqliteHome, writable);
      } else if Narrowed(d, sqliteHome, writable).Done? {
        var m := Narrowed(d, sqliteHome, writable).value;
        forall e | e in rest
          ensures AlreadyThere(mounts + [m], e) <==> AlreadyThere(mounts, e)
        {
          var j :| 0 <= j < |rest| && rest[j] == e;
          assert database[j + 1] == e;
        }
        AddDone(mounts + [m], rest, sqliteHome, writable);
      }
    }
  }

  lemma StorageDone(all: seq<Mount>, home: string, history: bool)
    ensures StorageMounts(all, home, history).Done? <==>
            ValidTargets(all) && Deepest(all, home).Some? &&
            forall m | m in all && (Deepest(all, home) == Some(m) ||
                                    Attached(Deepest(all, home).value, home, history, m)) :: m.usable
  {
    hide ValidTargets, Attached, Deepest;
    if ValidTargets(all) && Deepest(all, home).Some? {
      BaseIn(all, home);
    }
  }

  lemma BaseIn(all: seq<Mount>, home: string)
    requires Deepest(all, home).Some?
    ensures Deepest(all, home).value in all
  {
    hide Under;
  }

  /** Some mount covers the home. */
  predicate Covered(deployed: seq<Mount>, home: string) {
    exists m | m in deployed :: Under(m.destination, home)
  }

  /** When a helper is given mounts at all, exactly: the deployed targets are clean and none is there twice, both homes
      are in mounted storage, every history and metadata mount is usable, an import finds the Codex home writable, and
      no nonrecursive bind would have to be cut. */
  lemma GivenIf(deployed: seq<Mount>, codexHome: string, sqliteHome: string, writable: bool)
    requires Absolute(codexHome) && Absolute(sqliteHome)
    ensures TargetMounts(deployed, codexHome, sqliteHome, writable).Done? <==>
            ValidTargets(deployed) && Covered(deployed, codexHome) && Covered(deployed, sqliteHome) &&
            (forall m | m in deployed && (IsHistory(deployed, codexHome, m) || IsDatabase(deployed, sqliteHome, m)) ::
               m.usable) &&
            (forall m | m in deployed && CoversHome(deployed, codexHome, m) :: writable ==> m.rw) &&
            forall d | d in deployed && IsDatabase(deployed, sqliteHome, d) && !IsHistory(deployed, codexHome, d) ::
              !Uncuttable(sqliteHome, d)
  {
    hide Absolute, Under, ValidTargets, Attached, StorageMounts, Narrowed, Separate, AddDatabase, IsHistory, IsDatabase,
         CoversHome, Uncuttable;
    StorageDone(deployed, codexHome, true);
    StorageDone(deployed, sqliteHome, false);
    if ValidTargets(deployed) && Covered(deployed, codexHome) && Covered(deployed, sqliteHome) {
      forall m | m in deployed
        ensures HistoryMount(deployed, codexHome, m) <==> IsHistory(deployed, codexHome, m)
        ensures DatabaseMount(deployed, sqliteHome, m) <==> IsDatabase(deployed, sqliteHome, m)
        ensures CoversHome(deployed, codexHome, m) <==> Deepest(deployed, codexHome) == Some(m)
      {
        HistoryExactly(deployed, codexHome, m);
        DatabaseExactly(deployed, sqliteHome, m);
        CoverUnique(deployed, codexHome, m);
      }
      if StorageMounts(deployed, codexHome, true).Done? && StorageMounts(deployed, sqliteHome, false).Done? {
        CutDone(deployed, codexHome, sqliteHome, writable);
        BaseFirst(deployed, codexHome, true);
      }
    }
  }

  lemma CutDone(deployed: seq<Mount>, codexHome: string, sqliteHome: string, writable: bool)
    requires Absolute(codexHome) && Absolute(sqliteHome)
    requires StorageMounts(deployed, codexHome, true).Done? && StorageMounts(deployed, sqliteHome, false).Done?
    ensures var mounts := StorageMounts(deployed, codexHome, true).value;
            AddDatabase(mounts, StorageMounts(deployed, sqliteHome, false).value, sqliteHome, writable).Done? <==>
            forall d | d in deployed && DatabaseMount(deployed, sqliteHome, d) ::
              HistoryMount(deployed, codexHome, d) || !Uncuttable(sqliteHome, d)
  {
    hide NoEmptyPart, Rooted, Under, Attached, ValidTargets, StorageMounts, Narrowed, Separate, AddDatabase, Uncuttable;
    var mounts := StorageMounts(deployed, codexHome, true).value;
    var database := StorageMounts(deployed, sqliteHome, false).value;
    BaseFirst(deployed, codexHome, true);
    BaseFirst(deployed, sqliteHome, false);
    DatabaseSeparate(deployed, sqliteHome, writable);
    AddDone(mounts, database, sqliteHome, writable);
    forall d | d in deployed
      ensures AlreadyThere(mounts, d) <==> HistoryMount(deployed, codexHome, d)
      ensures d in database <==> DatabaseMount(deployed, sqliteHome, d)
      ensures Narrowed(d, sqliteHome, writable).Done? <==> !Uncuttable(sqliteHome, d)
    {
      if n :| n in mounts && n.destination == d.destination {
        SameDestination(deployed, n, d);
      }
      CutIf(sqliteHome, writable, d);
    }
  }

  lemma CutIf(sqliteHome: string, writable: bool, d: Mount)
    ensures Narrowed(d, sqliteHome, writable).Done? <==> !Uncuttable(sqliteHome, d)
  {
    hide Under, Join, Below;
  }
}
