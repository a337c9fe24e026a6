// A smallest publication: all hypotheses of the publication theorems hold together, and a step is made.

module Example {
  import opened Model
  import opened Format
  import opened Rollout
  import opened Cutoff
  import opened Inspect
  import opened Lineage
  import opened Conflicts
  import opened Steps
  import opened Schedule
  import opened Comparison
  import opened Planning
  import opened Slots
  import opened Tar
  import opened Wire
  import opened RoundTrip
  import opened Ustar
  import opened Overlap
  import opened Disks
  import opened Durability
  import I = Indexing

  const ID := "00000000-0000-0000-0000-000000000000"
  const STAMP := "2024-01-01T00-00-00"
  const RECORD: Bytes := [65, 10]
  const META := Metadata(ID, STAMP, "legacy", None)
  const ZONE := 60
  const LIMITS := Limits(100, 100, 10, 100)

  function TheWorld(): World {
    World(b => Some(Line("session_meta", None, true, Some(META))), b => Stream(b, true), b => b, b => AsText(b),
      s => Some(STAMP), m => ZONE)
  }

  lemma WorldIsIdeal()
    ensures CollisionFree(TheWorld()) && Lossless(TheWorld()) && ClockFormats(TheWorld())
  {
    forall a: Bytes, b: Bytes | AsText(a) == AsText(b)
      ensures a == b
    {
      assert forall i | 0 <= i < |a| :: a[i] as int == AsText(a)[i] as int == b[i] as int;
    }
    assert '/' !in STAMP;
  }

  lemma IdIsCanonical()
    ensures Canonical(ID)
  {
    assert |ID| == 36;
    assert Uuid(ID);
    ParseIDCanonical(ID);
  }

  lemma StampIsValid()
    ensures ValidStamp(STAMP) && '/' !in STAMP
  {
    hide Number;
    StampParts();
    assert StampShape(STAMP);
    TwoDigits("01");
    TwoDigits("00");
  }

  lemma StampParts()
    ensures STAMP[5..7] == "01" && STAMP[8..10] == "01"
    ensures STAMP[11..13] == "00" && STAMP[14..16] == "00" && STAMP[17..19] == "00"
  {
    TwoAt(STAMP, 5);
    TwoAt(STAMP, 8);
    TwoAt(STAMP, 11);
    TwoAt(STAMP, 14);
    TwoAt(STAMP, 17);
  }

  lemma TwoAt(s: string, i: nat)
    requires i + 2 <= |s|
    ensures s[i..i + 2] == [s[i], s[i + 1]]
  {
  }

  lemma TwoDigits(s: string)
    requires |s| == 2 && forall c | c in s :: Digit(c)
    ensures s[0] in s && s[1] in s
    ensures Number(s) == 10 * (s[0] as int - '0' as int) + (s[1] as int - '0' as int)
  {
    assert s[..1] == [s[0]] && s[..1][..0] == "";
    assert Number(s[..1]) == 10 * Number("") + (s[0] as int - '0' as int);
  }

  function ThePath(): string {
    "sessions" + "/" + ("rollout-" + STAMP + "-" + ID + ".jsonl")
  }

  function TheFile(): File {
    File(PayloadSlot(0), ThePath(), ID, ID, 2, AsText(RECORD), 0, false, META, 0, Node(0, RECORD, 0))
  }

  function TheTransfer(): Incoming {
    Incoming(ID, [TheFile()], [RECORD])
  }

  lemma RecordDescribes()
    ensures Describes(TheWorld(), LIMITS, TheFile(), RECORD)
  {
    IdIsCanonical();
    hide ParseID, ThePath, PayloadSlot;
    var w := TheWorld();
    assert RECORD[1..] == [10];
    assert FirstNewline(RECORD) == 1;
    assert RECORD[..2] == RECORD;
    var next := Scan(META, true, 0, 1, 2);
    assert Admit(w, ID, 100, START, RECORD) == Ok(next);
    assert RECORD[2..] == [];
    assert ScanAll(w, ID, LIMITS, Stream([], true), next) == Ok(next);
    assert ScanAll(w, ID, LIMITS, Stream(RECORD, true), START) == Ok(next);
  }

  lemma PathParses()
    ensures ParseName(ThePath()) == Some(Candidate(ThePath(), ID, ID))
    ensures HasSuffix(ThePath(), ".jsonl") && ManagedPath(ThePath()) && !PrerequisitePath(ThePath())
  {
    hide ParseName, Canonical, ValidStamp;
    IdIsCanonical();
    StampIsValid();
    MadeParses(STAMP, ID);
    MadeName(STAMP, ID);
    var name := "rollout-" + STAMP + "-" + ID + ".jsonl";
    ParseBelow("sessions", name);
    JoinSuffix("sessions", name, ".jsonl");
    PlainRoot(name);
  }

  lemma PlainRoot(name: string)
    ensures var p := "sessions" + "/" + name; ManagedPath(p) && !PrerequisitePath(p)
  {
    var p := "sessions" + "/" + name;
    assert p[..9] == "sessions/";
    assert p[0] == 's' && PREREQUISITE_ROOT[0] == 'a';
  }

  lemma FileIsValid()
    ensures ValidFile(TheWorld(), LIMITS, TheFile(), RECORD)
  {
    hide Describes, ParseName, ThePath, PayloadSlot, ManagedPath, PrerequisitePath, HasSuffix;
    RecordDescribes();
    PathParses();
    PayloadShape(0);
    NotCompressed(PayloadSlot(0));
  }

  /** An empty destination accepts the transfer, and one file is installed. */
  lemma SmallestPublication() returns (t: Target, inc: Incoming, stage: Stage)
    ensures Accepted(t, inc) && StageFor(t.w, inc, Check(t, inc).value, stage)
    ensures t.tree == map[] && StepsOf(t.w, inc, Check(t, inc).value, stage) == [Install(ThePath(), Node(7, RECORD, 0))]
  {
    t, inc := Target(TheWorld(), LIMITS, map[], [], None), TheTransfer();
    FileIsValid();
    WorldIsIdeal();
    IdIsCanonical();
    hide ValidFile, TheWorld, CollisionFree, Lossless, ClockFormats, Canonical, ThePath, Listed;
    assert ValidIncoming(t.w, t.limits, inc);
    var choice := FreshChoice(inc, 0, None);
    assert WeighAll(t, inc, 0, choice, []) == Ok(choice);
    assert ChooseFrom(t, inc, Admission([], None), 1) == Ok([]);
    assert AdmitSelection(t, inc) == Ok(Admission([], None));
    assert ChooseFrom(t, inc, Admission([], None), 0) == Ok([choice] + []);
    assert [choice] + [] == [choice];
    assert Check(t, inc) == Ok([choice]);
    stage := Stage([Node(7, RECORD, 0)], [[]]);
    assert StepsUpTo(t.w, inc, [choice], stage, 0) == [];
    assert StepsUpTo(t.w, inc, [choice], stage, 1) == StepsFor(t.w, inc, [choice], stage, 0);
    assert StepsFor(t.w, inc, [choice], stage, 0) == [Install(ThePath(), stage.staged[0])];
  }

  lemma {:induction false} FolderOf(dir: string, name: string)
    requires dir != "" && dir[|dir| - 1] == '/' && '/' !in name
    ensures Folder(dir + name) == dir
  {
    if name == "" {
      assert dir + name == dir;
    } else {
      assert forall c | c in name[..|name| - 1] :: c in name;
      assert name[|name| - 1] in name;
      FolderOf(dir, name[..|name| - 1]);
      assert (dir + name)[..|dir + name| - 1] == dir + name[..|name| - 1];
    }
  }

  lemma SessionsWay()
    ensures "sessions/" in Way(ThePath())
  {
    IdIsCanonical();
    StampIsValid();
    MadeName(STAMP, ID);
    hide Canonical, ValidStamp;
    var name := "rollout-" + STAMP + "-" + ID + ".jsonl";
    assert ThePath() == "sessions/" + name;
    FolderOf("sessions/", name);
    assert Above("sessions/") == Above(Holder("sessions/")) + ["sessions/"];
  }

  /** The same publication, twice: the first attempt makes `sessions` and cannot sync the home, the second runs to its
      end, and a machine crash leaves the home without the file all the same. */
  lemma UnsyncedDirectory() returns (t: Target, inc: Incoming, ds: seq<Disk>, es: seq<Incident>)
    ensures Accepted(t, inc) && Course(t, inc, ds, es) && |es| == 2 && es[1].Publishing? && es[1].synced
    ensures ThePath() in ds[2].now && exists after :: MayLeave(ds[2], after) && ThePath() !in after
  {
    var stage;
    t, inc, stage := SmallestPublication();
    SessionsWay();
    hide Accepted, Check, StageFor, StepsOf, Course, MayLeave, ThePath, Way, OpsFor;
    ds, es := DirectoryTakenBack(t, inc, stage, {}, ThePath(), Node(7, RECORD, 0), "sessions/");
  }

  // ---- a thread that already has a prerequisite ----

  const OTHER := "11111111-1111-1111-1111-111111111111"

  lemma OtherIsCanonical()
    ensures Canonical(OTHER)
  {
    assert |OTHER| == 36;
    assert Uuid(OTHER);
    ParseIDCanonical(OTHER);
  }

  lemma {:induction false} UnderscoreAfter(a: string, b: string)
    requires '_' !in a
    ensures Underscore(a + "_" + b) == |a|
  {
    if a == "" {
      assert a + "_" + b == "_" + b;
    } else {
      assert forall c | c in a[1..] :: c in a;
      assert a[0] in a;
      UnderscoreAfter(a[1..], b);
      assert (a + "_" + b)[1..] == a[1..] + "_" + b;
    }
  }

  /** The name of a rollout that is not its thread's first. */
  function RevertName(): string {
    "rollout-" + STAMP + "-" + ID + "_" + OTHER + ".jsonl"
  }

  lemma RevertCore(path: string)
    ensures ParseCore(path, STAMP + "-" + ID + "_" + OTHER) == Some(Candidate(path, ID, OTHER))
  {
    CanonicalIds();
    StampIsValid();
    CanonicalChars(ID);
    hide ParseID, ValidStamp, Canonical, Underscore;
    UnderscoreAfter(ID, OTHER);
    var core, ids := STAMP + "-" + ID + "_" + OTHER, ID + "_" + OTHER;
    CoreSplit(STAMP, ID, OTHER);
    assert core[..19] == STAMP && core[20..] == ids;
  }

  lemma CoreSplit(stamp: string, id: string, rollout: string)
    requires |stamp| == 19
    ensures var core, ids := stamp + "-" + id + "_" + rollout, id + "_" + rollout;
            |core| >= 20 && core[19] == '-' && core[..19] == stamp && core[20..] == ids &&
            ids[..|id|] == id && ids[|id| + 1..] == rollout
  {
  }

  lemma CanonicalIds()
    ensures ParseID(ID) == Some(ID) && ParseID(OTHER) == Some(OTHER) && Canonical(ID)
  {
    IdIsCanonical();
    OtherIsCanonical();
  }

  lemma CanonicalChars(id: string)
    requires Canonical(id)
    ensures '_' !in id && '/' !in id && id != ""
  {
    UuidChars(id);
  }

  lemma CoreParses(core: string)
    requires '/' !in core
    ensures var name := "rollout-" + core + ".jsonl";
            ParseName(name) == ParseCore(name, core) && '/' !in name && HasSuffix(name, ".jsonl")
  {
    hide ParseCore, AfterSlash;
    var name := "rollout-" + core + ".jsonl";
    assert '/' !in "rollout-" && '/' !in ".jsonl";
    assert name[|name| - 6..] == ".jsonl";
    AfterSlashPlain(name);
    NotCompressed(name);
    assert name[8..] == core + ".jsonl";
    assert (core + ".jsonl")[|core|..] == ".jsonl" && (core + ".jsonl")[..|core|] == core;
  }

  lemma RevertParses()
    ensures ParseName(RevertName()) == Some(Candidate(RevertName(), ID, OTHER))
    ensures '/' !in RevertName() && HasSuffix(RevertName(), ".jsonl")
  {
    hide ParseName, ParseCore, Canonical, ValidStamp;
    IdIsCanonical();
    OtherIsCanonical();
    StampIsValid();
    CanonicalChars(ID);
    CanonicalChars(OTHER);
    var core := STAMP + "-" + ID + "_" + OTHER;
    assert '/' !in "-" && '/' !in "_";
    CoreParses(core);
    assert RevertName() == "rollout-" + core + ".jsonl";
    RevertCore(RevertName());
  }

  function RevertPath(): string {
    "archived_sessions/.hcorral-history/" + OTHER + "/" + RevertName()
  }

  lemma RevertPathFacts()
    ensures ParseName(RevertPath()) == Some(Candidate(RevertPath(), ID, OTHER)) && ValidRelative(RevertPath())
    ensures PrerequisitePath(RevertPath()) && ManagedPath(RevertPath())
  {
    hide ParseName, RevertName, ValidRelative, Canonical, Uuid;
    RevertParses();
    var d := "archived_sessions/.hcorral-history/" + OTHER;
    ParseBelow(d, RevertName());
    OtherIsCanonical();
    assert Uuid(OTHER) by {
      UuidChars(OTHER);
    }
    HistoryDirectory(OTHER);
    CanonicalName(RevertName());
    CleanChars(RevertName());
    LongIsGood(RevertName());
    ValidJoin(d, RevertName());
    var p := RevertPath();
    assert p[..35] == PREREQUISITE_ROOT && p[..18] == "archived_sessions/";
  }

  lemma CleanChars(name: string)
    requires forall c | c in name :: NameChar(c)
    ensures '/' !in name && '\\' !in name && '\0' !in name
  {
  }

  lemma LongIsGood(name: string)
    requires |name| >= 70
    ensures GoodComponent(name)
  {
  }

  function TheHome(): Target {
    Target(TheWorld(), LIMITS, map[RevertPath() := Node(3, RECORD, 0)], [Candidate(RevertPath(), ID, OTHER)], None)
  }

  /** The single file is published into a home that holds only a managed prerequisite of another rollout of the thread.
      The check accepts it, and publish does not confirm the selection: some run beside the indexer ends with a
      successful publication and a row naming the prerequisite. */
  lemma Unconfirmed() returns (t: Target, inc: Incoming, stage: Stage)
    ensures Accepted(t, inc) && StageFor(t.w, inc, Check(t, inc).value, stage) && I.Checked(t, inc, stage)
    ensures inc.files != [] && !SelectionHolds(I.PublishingOf(t, inc, stage))
  {
    t, inc := TheHome(), TheTransfer();
    FileIsValid();
    WorldIsIdeal();
    IdIsCanonical();
    RevertPathFacts();
    hide ValidFile, TheWorld, CollisionFree, Lossless, ClockFormats, Canonical, ThePath, ParseName, RevertPath;
    hide ValidRelative, ManagedPath, PrerequisitePath, SelectionHolds, I.PublishingOf;
    assert ValidIncoming(t.w, t.limits, inc);
    var c, choice := t.inv[0], FreshChoice(inc, 0, None);
    assert c.rollout != inc.files[0].rollout by {
      assert OTHER[0] != ID[0];
    }
    assert t.inv[1..] == [];
    assert WeighAll(t, inc, 0, choice, []) == Ok(choice);
    assert WeighAll(t, inc, 0, choice, t.inv) == Ok(choice);
    assert AdmitSelection(t, inc) == Ok(Admission(t.inv, None));
    assert ChooseFrom(t, inc, Admission(t.inv, None), 1) == Ok([]);
    assert ChooseFrom(t, inc, Admission(t.inv, None), 0) == Ok([choice] + []);
    assert [choice] + [] == [choice];
    assert Check(t, inc) == Ok([choice]);
    stage := Stage([Node(7, RECORD, 0)], [[]]);
    assert InventoryOf(t.tree, t.inv);
    assert StageFor(t.w, inc, Check(t, inc).value, stage);
    assert !Alone(t, inc) by {
      assert RevertPath() in t.tree && Listed(RevertPath());
    }
    SelectionExactly(t, inc, stage);
  }

  // ---- dates ----

  function DatedFile(time: int): File {
    File(ThePath(), ThePath(), ID, ID, 2, AsText(RECORD), time, false, META, 0, Node(3, RECORD, time))
  }

  function TheSnapshot(time: int): Env {
    Env(TheWorld(), map[ThePath() := Node(3, RECORD, time)], [Candidate(ThePath(), ID, ID)], LIMITS, true)
  }

  lemma SnapshotComplete(time: int)
    ensures CompletePlan(TheSnapshot(time), Plan(ID, [DatedFile(time)]))
  {
    IdIsCanonical();
    FileRead(time);
    hide Canonical, DatedFile, TheSnapshot, ReadFrom;
  }

  lemma FileRead(time: int)
    ensures ReadFrom(TheSnapshot(time), DatedFile(time))
    ensures TheSnapshot(time).limits == LIMITS && DatedFile(time).meta == META && DatedFile(time).thread == ID
    ensures !DatedFile(time).prefix
  {
    FileDescribed(time);
    hide ThePath, Describes, HasSuffix, ContentOf, ParseName, Canonical, TheWorld, TrimSuffix, AsText;
  }

  lemma FileDescribed(time: int)
    ensures Describes(TheWorld(), LIMITS, DatedFile(time), RECORD) && ContentOf(TheWorld(), DatedFile(time)) == RECORD
    ensures TrimSuffix(ThePath(), ".zst") == ThePath() && !HasSuffix(ThePath(), ".zst")
    ensures TheWorld().hash(RECORD) == AsText(RECORD) && AdmittedMetadata(META, ID)
  {
    RecordDescribes();
    PathParses();
    IdIsCanonical();
    hide ThePath, Summarize, HasSuffix, ContentOf, ParseName, PayloadSlot, TrimSuffix, AsText;
    NotCompressed(ThePath());
    PlainContent(DatedFile(time));
  }

  lemma PlainContent(f: File)
    requires !HasSuffix(f.source, ".zst") && f.stored.raw == RECORD && f.bytes == 2
    ensures ContentOf(TheWorld(), f) == RECORD
  {
    assert RECORD[..2] == RECORD;
  }

  /** The file has a place to be published at. */
  lemma FilePublishes(time: int)
    ensures PublicationPath(TheWorld(), DatedFile(time)).Ok?
  {
    hide ParseName, Canonical, ValidStamp, HasSuffix, HasPrefix;
    IdIsCanonical();
    StampIsValid();
    PathParses();
    MadeParses(STAMP, ID);
    MadeName(STAMP, ID);
    NotCompressed(ThePath());
    var name := "rollout-" + STAMP + "-" + ID + ".jsonl";
    BaseJoin("sessions", name);
    CanonicalName(name);
    RestLong(name);
  }

  lemma RestLong(name: string)
    requires |name| >= 70
    ensures |TrimPrefix(name, "rollout-")| >= 10
  {
  }

  function TheManifest(time: int): Manifest {
    var f := DatedFile(time);
    var path := PublicationPath(TheWorld(), f);
    Manifest(VERSION, ID, [WireFile(if path.Ok? then path.value else "", ID, ID, 2, f.sha, Stamp(time, ZONE), false)])
  }

  /** Real tar headers, and a manifest codec that knows this one manifest. */
  function TheCodecs(time: int): Codecs {
    Codecs(HEADERS, m => if m == TheManifest(time) then Some([123]) else None,
           b => if b == [123] then Some(TheManifest(time)) else None, b => Zero(SEAL_BYTES), s => true)
  }

  lemma CodecsSound(time: int)
    ensures Sound(TheCodecs(time), TheWorld())
  {
    hide Faithful, TheManifest;
    HeadersFaithful();
  }

  function TheExport(time: int): Result<Bytes> {
    Export(TheWorld(), TheCodecs(time), LIMITS, Plan(ID, [DatedFile(time)]), i => RECORD)
  }

  lemma ManifestEncodes(time: int)
    ensures ManifestOf(TheWorld(), TheCodecs(time), LIMITS, Plan(ID, [DatedFile(time)])) ==
            Ok((TheManifest(time), [123]))
  {
    FilePublishes(time);
    hide ThePath, PublicationPath;
    var f := DatedFile(time);
    assert [f][..0] == [];
    assert EntriesOf(TheWorld(), [f]) == Ok([] + TheManifest(time).files);
    assert [] + TheManifest(time).files == TheManifest(time).files;
  }

  lemma FileCopied(time: int)
    ensures CopyPayload(TheWorld(), DatedFile(time), RECORD, Exact(DatedFile(time))) == Ok(RECORD)
  {
    FileDescribed(time);
    hide ThePath, HasSuffix, ParseName, TrimSuffix, AsText, Describes, ContentOf, AdmittedMetadata;
    assert RECORD[..2] == RECORD;
  }

  lemma FileCopies(time: int)
    ensures CopyAll(TheWorld(), [DatedFile(time)], i => RECORD, 1) == Ok([RECORD])
  {
    FileCopied(time);
    hide CopyPayload, Exact, TheWorld, DatedFile;
    assert CopyAll(TheWorld(), [DatedFile(time)], i => RECORD, 0) == Ok([]);
    assert [] + [RECORD] == [RECORD];
  }

  lemma ExportCompletes(time: int)
    ensures TheExport(time).Ok?
  {
    ManifestEncodes(time);
    FileCopies(time);
    hide TheWorld, ManifestOf, CopyAll, StreamBytes, DatedFile, TheCodecs;
  }

  /** One conversation, dated at any instant on a host one hour ahead of UTC: its export completes, and it is received
      if and only if its date, in that zone, lies in the years 1970 to 2261. */
  lemma DatedConversation(time: int)
    ensures TheExport(time).Ok?
    ensures Exported(TheWorld(), TheCodecs(time), TheSnapshot(time), Plan(ID, [DatedFile(time)]), i => RECORD,
              TheExport(time).value)
    ensures Receive(TheWorld(), TheCodecs(time), LIMITS, Stream(TheExport(time).value, true)).Ok? <==>
            0 <= time + ZONE * MINUTE < LAST_NANOSECOND
  {
    WorldIsIdeal();
    SnapshotComplete(time);
    CodecsSound(time);
    ExportCompletes(time);
    FileDated(time);
    hide TheWorld, TheCodecs, DatedFile, TheSnapshot, NamesRollout, Export, Sound, Receive, CompletePlan, CollisionFree;
    hide ClockFormats, Dated, StampOf;
    var p := Plan(ID, [DatedFile(time)]);
    ExportRoundTrips(TheWorld(), TheCodecs(time), TheSnapshot(time), p, i => RECORD, TheExport(time).value);
    assert p.files[0] == DatedFile(time);
  }

  lemma FileDated(time: int)
    ensures NamesRollout(DatedFile(time).source) && TheSnapshot(time).w == TheWorld()
    ensures TheSnapshot(time).limits == LIMITS
    ensures Dated(StampOf(TheWorld(), DatedFile(time))) <==> 0 <= time + ZONE * MINUTE < LAST_NANOSECOND
  {
    PathParses();
    NotCompressed(ThePath());
    hide ThePath, HasSuffix, ParseName;
  }

  /** Within a zone's offset of either end the year in UTC does not decide: 23:30 UTC on the last day of 2261 is
      refused, and the nanosecond before 1970 is accepted. */
  lemma ZoneDecides()
    ensures var time := LAST_NANOSECOND - 30 * MINUTE;
            0 <= time < LAST_NANOSECOND && TheExport(time).Ok? &&
            Receive(TheWorld(), TheCodecs(time), LIMITS, Stream(TheExport(time).value, true)).Err?
    ensures TheExport(-1).Ok? && Receive(TheWorld(), TheCodecs(-1), LIMITS, Stream(TheExport(-1).value, true)).Ok?
  {
    hide TheExport, Receive, TheWorld, TheCodecs;
    DatedConversation(LAST_NANOSECOND - 30 * MINUTE);
    DatedConversation(-1);
  }
}
