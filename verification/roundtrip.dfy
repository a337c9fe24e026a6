// Receive undoes Export: internal/session/stream.go with snapshot.go.

module RoundTrip {
  import opened Model
  import opened Format
  import opened Rollout
  import opened Cutoff
  import opened Inspect
  import opened Lineage
  import opened Conflicts
  import opened Steps
  import opened NonInterference
  import opened Schedule
  import opened Planning
  import opened Slots
  import opened Tar
  import opened Wire
  import opened Framing

  // ---- reading a written stream ----

  predicate SizesAs(m: Manifest, contents: seq<Bytes>) {
    |contents| == |m.files| && forall i | 0 <= i < |contents| :: |contents[i]| == m.files[i].bytes
  }

  lemma ManifestWritten(x: Codecs, limits: Limits, m: Manifest, encoded: Bytes, more: Bytes, s: Stream)
    requires Faithful(x.tar) && x.decode(encoded) == Some(m) && 1 <= |encoded| <= limits.manifestBytes
    requires s.data == Opening(x, encoded) + more
    ensures ReceiveManifest(x, limits, s) ==
            if ValidManifest(x, limits, m) then Ok((m, encoded, more)) else Err(BadManifest)
  {
    hide Faithful, Next, ValidManifest;
    assert Zero(0) == [];
    assert s.data == Zero(0) + (x.tar.write(MANIFEST, |encoded|) + encoded) + more;
    MemberRead(x.tar, 0, MANIFEST, encoded, more, s);
    assert (encoded + more)[..|encoded|] == encoded && (encoded + more)[|encoded|..] == more;
  }

  lemma PendingIs(m: Manifest, encoded: Bytes, contents: seq<Bytes>, i: nat)
    requires SizesAs(m, contents) && i <= |contents|
    ensures PaddingDue(encoded, contents, i) == Pending(m, encoded, i)
  {
    hide Pad;
  }

  /** The n-th payload member is read back. */
  lemma PayloadWritten(x: Codecs, m: Manifest, encoded: Bytes, contents: seq<Bytes>, n: nat, more: Bytes, s: Stream)
    requires Faithful(x.tar) && n < |contents| <= |m.files| && Carriable(m)
    requires forall i | 0 <= i < |contents| :: |contents[i]| == m.files[i].bytes
    requires s.data == Zero(PaddingDue(encoded, contents, n)) + (x.tar.write(PayloadName(n),
             |contents[n]|) + contents[n]) + more
    ensures Expect(x.tar, s, Pending(m, encoded, n), PayloadName(n), m.files[n].bytes) == Ok((contents[n], more))
  {
    hide Faithful, Expect, Pad, PayloadName, Writable;
    PayloadNamed(n, |contents[n]|);
    MemberRead(x.tar, PaddingDue(encoded, contents, n), PayloadName(n), contents[n], more, s);
  }

  lemma PayloadsSplit(x: Codecs, encoded: Bytes, contents: seq<Bytes>, n: nat, more: Bytes)
    requires 0 < n <= |contents|
    ensures PayloadBytes(x, encoded, contents, n) + more ==
            PayloadBytes(x, encoded, contents, n - 1) +
            (Zero(PaddingDue(encoded, contents, n - 1)) +
             (x.tar.write(PayloadName(n - 1), |contents[n - 1]|) + contents[n - 1]) + more)
  {
    hide Pad, PayloadName;
  }

  predicate AllReceived(w: World, limits: Limits, m: Manifest, contents: seq<Bytes>, n: nat)
    requires n <= |m.files| == |contents|
  {
    forall i | 0 <= i < n :: ReceiveFile(w, limits, i, m.files[i], contents[i]).Ok?
  }

  lemma {:induction false} PayloadsWritten(w: World, x: Codecs, limits: Limits, m: Manifest, encoded: Bytes,
                                           contents: seq<Bytes>, n: nat, more: Bytes, s: Stream)
    requires Faithful(x.tar) && SizesAs(m, contents) && Carriable(m)
    requires n <= |contents| && AllReceived(w, limits, m, contents, n)
    requires s.data == PayloadBytes(x, encoded, contents, n) + more
    ensures var r := ReceivePayloads(w, x, limits, m, encoded, s, n);
            r.Ok? && r.value.contents == contents[..n] && r.value.rest == more && |r.value.files| == n &&
            forall i | 0 <= i < n :: Ok(r.value.files[i]) == ReceiveFile(w, limits, i, m.files[i], contents[i])
    decreases n
  {
    hide Faithful, Expect, ReceiveFile, PayloadName, Pending, PaddingDue;
    if n == 0 {
      assert s.data == more;
    } else {
      var tail := Zero(PaddingDue(encoded, contents, n - 1)) +
                  (x.tar.write(PayloadName(n - 1), |contents[n - 1]|) + contents[n - 1]) + more;
      PayloadsSplit(x, encoded, contents, n, more);
      PayloadsWritten(w, x, limits, m, encoded, contents, n - 1, tail, s);
      PayloadWritten(x, m, encoded, contents, n - 1, more, Stream(tail, s.clean));
      assert contents[..n] == contents[..n - 1] + [contents[n - 1]];
    }
  }

  lemma ClosingWritten(x: Codecs, m: Manifest, encoded: Bytes, contents: seq<Bytes>, s: Stream)
    requires Faithful(x.tar) && SizesAs(m, contents) && |x.seal(encoded)| == SEAL_BYTES && s.clean
    requires s.data == Closing(x, encoded, contents)
    ensures ReceiveCompletion(x, m, encoded, s) == Ok(Zero(Pad(SEAL_BYTES)) + Zero(2 * BLOCK))
    ensures Trailer(x.tar, Stream(Zero(Pad(SEAL_BYTES)) + Zero(2 * BLOCK), true), SEAL_BYTES)
  {
    hide Faithful, Expect, PaddingDue, Pending;
    PendingIs(m, encoded, contents, |contents|);
    var rest := Zero(Pad(SEAL_BYTES)) + Zero(2 * BLOCK);
    MemberRead(x.tar, PaddingDue(encoded, contents, |contents|), COMPLETE, x.seal(encoded), rest, s);
    assert rest[Pad(SEAL_BYTES)..] == Zero(2 * BLOCK);
    TrailerExact(x.tar, Stream(rest, true), SEAL_BYTES);
  }

  /** A written stream is received when its manifest is valid, its payloads pass their checks and they form a
      lineage. */
  lemma StreamWritten(w: World, x: Codecs, limits: Limits, m: Manifest, encoded: Bytes, contents: seq<Bytes>,
                      files: seq<File>)
    requires Sound(x, w) && limits.Valid() && x.decode(encoded) == Some(m) && 1 <= |encoded| <= limits.manifestBytes
    requires SizesAs(m, contents) && ValidManifest(x, limits, m) && |files| == |contents| && ValidLineage(files)
    requires forall i | 0 <= i < |files| :: ReceiveFile(w, limits, i, m.files[i], contents[i]) == Ok(files[i])
    ensures Receive(w, x, limits, Stream(StreamBytes(x, encoded, contents), true)) == Ok(Incoming(m.thread, files,
            contents))
  {
    hide Faithful, ReceiveFile, PayloadBytes, Closing, Opening, ValidManifest, ReceiveManifest, ReceivePayloads,
         ReceiveCompletion, ValidLineage, Trailer, PaddingDue;
    var s := Stream(StreamBytes(x, encoded, contents), true);
    var tail := PayloadBytes(x, encoded, contents, |contents|) + Closing(x, encoded, contents);
    assert s.data == Opening(x, encoded) + tail;
    ValidCarriable(x, limits, m);
    ManifestWritten(x, limits, m, encoded, tail, s);
    PayloadsWritten(w, x, limits, m, encoded, contents, |contents|, Closing(x, encoded, contents), Stream(tail, true));
    var r := ReceivePayloads(w, x, limits, m, encoded, Stream(tail, true), |m.files|).value;
    assert r.files == files && contents[..|contents|] == contents;
    ClosingWritten(x, m, encoded, contents, Stream(r.rest, true));
  }

  lemma InvalidRejected(w: World, x: Codecs, limits: Limits, m: Manifest, encoded: Bytes, contents: seq<Bytes>)
    requires Sound(x, w) && x.decode(encoded) == Some(m) && 1 <= |encoded| <= limits.manifestBytes
    requires !ValidManifest(x, limits, m)
    ensures Receive(w, x, limits, Stream(StreamBytes(x, encoded, contents), true)).Err?
  {
    hide Faithful, ReceiveFile, PayloadBytes, Closing, Opening, ValidManifest, ReceiveManifest, ReceivePayloads,
         ReceiveCompletion, ValidLineage, Trailer, PaddingDue;
    var s := Stream(StreamBytes(x, encoded, contents), true);
    var tail := PayloadBytes(x, encoded, contents, |contents|) + Closing(x, encoded, contents);
    assert s.data == Opening(x, encoded) + tail;
    ManifestWritten(x, limits, m, encoded, tail, s);
  }

  // ---- what a snapshot's plan holds ----

  /** Paths of stored files are clean relative paths. */
  ghost predicate CleanTree(tree: Tree) {
    forall p | p in tree :: ValidRelative(p)
  }

  predicate NamesRollout(path: string) {
    HasSuffix(TrimSuffix(path, ".zst"), ".jsonl")
  }

  lemma ListedNames(env: Env, c: Candidate)
    requires InventoryOf(env.tree, env.inv) && CleanTree(env.tree) && c in env.inv
    ensures NamesRollout(c.path)
  {
    hide ParseName, ManagedPath, ValidRelative;
    ParsedSuffix(c.path);
    SelectableSuffix(c.path);
  }

  lemma FilesName(files: seq<File>, last: File)
    requires (forall f | f in files :: NamesRollout(f.source)) && NamesRollout(last.source)
    ensures forall f | f in files + [last] :: NamesRollout(f.source)
  {
    hide NamesRollout;
  }

  lemma {:induction false} WalkNames(env: Env, u: set<string>, sel: Option<Selection>, next: seq<Candidate>,
                                     end: Option<HistoryPosition>, seen: set<string>, count: nat)
    requires env.limits.Valid() && InventoryOf(env.tree, env.inv) && CleanTree(env.tree)
    requires next != [] && Covers(u, env.inv) && Covers(u, next) && seen <= u && NamesRollout(next[0].path)
    requires Walk(env, u, sel, next, end, seen, count).Ok?
    ensures forall f | f in Walk(env, u, sel, next, end, seen, count).value :: NamesRollout(f.source)
    decreases |u - seen|
  {
    hide Agree, MatchesSelection, ByRollout, Walk, NamesRollout, InventoryOf, Covers, CleanTree, Append;
    WalkStops(env, u, sel, next, end, seen, count);
    ChosenFacts(env, next, end);
    var chosen := Agree(env, next, end).value;
    if chosen.meta.base.Some? {
      var base := chosen.meta.base.value;
      var parents := ByRollout(env.inv, base.rollout);
      assert parents[0] in parents;
      ListedNames(env, parents[0]);
      CoversPart(u, env.inv, parents);
      WalkGoes(env, u, sel, next, end, seen, count, chosen);
      UniverseHolds(u, next);
      AppendOk(Walk(env, u, sel, parents, Some(base), seen + {next[0].rollout}, count + 1), [chosen]);
      WalkNames(env, u, sel, parents, Some(base), seen + {next[0].rollout}, count + 1);
      var rest := Walk(env, u, sel, parents, Some(base), seen + {next[0].rollout}, count + 1);
      AppendIs(rest, [chosen]);
      FilesName(rest.value, chosen);
    }
  }

  lemma AppendIs(r: Result<seq<File>>, tail: seq<File>)
    requires r.Ok?
    ensures Append(r, tail) == Ok(r.value + tail)
  {
  }

  lemma CoversPart(u: set<string>, inv: seq<Candidate>, cs: seq<Candidate>)
    requires Covers(u, inv) && forall c | c in cs :: c in inv
    ensures Covers(u, cs)
  {
  }

  lemma UniverseHolds(u: set<string>, next: seq<Candidate>)
    requires Covers(u, next) && next != []
    ensures next[0].rollout in u
  {
    assert next[0] in next;
  }

  /** Every file of a plan is a rollout by name. */
  lemma PlanNames(env: Env, thread: string, sel: Option<Selection>, after: Option<Selection>)
    requires InventoryOf(env.tree, env.inv) && CleanTree(env.tree) && Resolve(env, thread, sel, after).Ok?
    ensures forall f | f in Resolve(env, thread, sel, after).value.files :: NamesRollout(f.source)
  {
    hide Walk, InventoryOf, CleanTree, SelectedForms, NamesRollout, Conversations, CheckMain;
    var id := ParseID(thread).value;
    var main := MainForms(env, sel, id).value;
    if sel.Some? {
      MainFormPath(env, sel.value, id, main, main[0]);
      NamesLike(main[0].path, sel.value.path);
    } else {
      assert main[0] in main;
      ListedNames(env, main[0]);
    }
    WalkNames(env, Universe(env, main), sel, main, None, {}, 0);
  }

  lemma NamesLike(p: string, path: string)
    requires FormOf(p, path) && HasSuffix(TrimSuffix(path, ".zst"), ".jsonl")
    ensures NamesRollout(p)
  {
  }

  // ---- the manifest of a plan ----

  lemma {:induction false} EntriesFacts(w: World, files: seq<File>)
    requires EntriesOf(w, files).Ok?
    ensures var r := EntriesOf(w, files).value;
            |r| == |files| && forall i | 0 <= i < |files| :: EntryOf(w, files[i]) == Ok(r[i])
  {
    hide EntryOf;
    if files != [] {
      EntriesFacts(w, files[..|files| - 1]);
    }
  }

  lemma {:induction false} CopiesFacts(w: World, files: seq<File>, now: nat -> Bytes, n: nat)
    requires n <= |files| && CopyAll(w, files, now, n).Ok?
    ensures var r := CopyAll(w, files, now, n).value;
            |r| == n && forall i | 0 <= i < n ::
              CopyPayload(w, files[i], now(i), Exact(files[i])) == Ok(r[i]) && |r[i]| == files[i].bytes &&
                w.hash(r[i]) == files[i].sha
  {
    hide Decoded, Exact;
    if n > 0 {
      CopiesFacts(w, files, now, n - 1);
    }
  }

  /** A file and its entry. */
  predicate EntryFor(w: World, f: File, e: WireFile) {
    EntryOf(w, f) == Ok(e)
  }

  predicate Exportable(w: World, limits: Limits, f: File, content: Bytes) {
    Describes(w, limits, f, content) && |content| == f.bytes && 0 < f.bytes <= limits.fileBytes &&
      f.sha == w.hash(content) &&
    Canonical(f.thread) && HasSuffix(f.path, ".jsonl")
  }

  lemma EntryFacts(w: World, limits: Limits, f: File, e: WireFile, content: Bytes)
    requires ClockFormats(w) && EntryOf(w, f) == Ok(e) && Exportable(w, limits, f, content)
    ensures Canonical(e.thread) && Canonical(e.rollout) && ValidRelative(e.path) && ManagedPath(e.path)
    ensures HasSuffix(e.path, ".jsonl") && e.sha == w.hash(content) && 1 <= e.bytes <= limits.fileBytes
    ensures e.prefix == f.prefix && e.thread == f.thread && e.rollout == f.rollout && e.modified == StampOf(w, f)
    ensures PublicationPath(w, f.(path := e.path)) == Ok(e.path)
  {
    hide Describes, PublicationPath, ParseName, ManagedPath, PrerequisitePath, ValidRelative;
    PublicationPathFacts(w, f);
    ParsedRollout(e.path);
  }

  lemma ParsedRollout(p: string)
    requires ParseName(p).Some?
    ensures Canonical(ParseName(p).value.rollout)
  {
    hide Base, ValidStamp, Uuid;
    ParseIDCanonical(ParseName(p).value.rollout);
  }

  lemma PlanShape(env: Env, p: Plan)
    requires CompletePlan(env, p)
    ensures Canonical(p.thread) && 1 <= |p.files| <= env.limits.files && Distinct(p.files)
    ensures forall i | 0 <= i < |p.files| :: p.files[i].prefix == (i < |p.files| - 1)
    ensures p.files[|p.files| - 1].thread == p.thread
  {
    hide ReadFrom, Joined;
  }

  lemma EntryDated(w: World, x: Codecs, limits: Limits, m: Manifest, f: File, i: nat, content: Bytes)
    requires ClockFormats(w) && Sound(x, w) && i < |m.files| && EntryFor(w, f, m.files[i]) &&
             Exportable(w, limits, f, content)
    requires f.prefix == (i < |m.files| - 1) && (i == |m.files| - 1 ==> f.thread == m.thread)
    requires m.files[i].rollout !in Rollouts(m, i)
    ensures ValidEntry(x, limits, m, i, Rollouts(m, i)) <==> Dated(StampOf(w, f))
  {
    hide EntryOf, Exportable, ValidRelative, ManagedPath, Faithful, Dated, Rollouts, Canonical, HasSuffix;
    EntryFacts(w, limits, f, m.files[i], content);
  }

  lemma EntryRollout(w: World, f: File, e: WireFile)
    requires EntryFor(w, f, e)
    ensures e.rollout == f.rollout && e.thread == f.thread && e.prefix == f.prefix
  {
    hide PublicationPath;
  }

  lemma EntriesDistinct(w: World, files: seq<File>, m: Manifest, i: nat)
    requires Distinct(files) && |m.files| == |files| && i < |files|
    requires forall j | 0 <= j < |files| :: EntryFor(w, files[j], m.files[j])
    ensures m.files[i].rollout !in Rollouts(m, i)
  {
    hide EntryFor;
    if m.files[i].rollout in Rollouts(m, i) {
      var j :| 0 <= j < i && m.files[j].rollout == m.files[i].rollout;
      EntryRollout(w, files[j], m.files[j]);
      EntryRollout(w, files[i], m.files[i]);
    }
  }

  /** The manifest of a plan is valid exactly when every file's modification time, in the exporting host's zone, falls
      in the years it can carry. */
  lemma ManifestValid(w: World, x: Codecs, env: Env, p: Plan, m: Manifest, contents: seq<Bytes>)
    requires ClockFormats(w) && Sound(x, w) && CompletePlan(env, p)
    requires m == Manifest(VERSION, p.thread, m.files) && |m.files| == |p.files| == |contents|
    requires forall i | 0 <= i < |p.files| :: EntryFor(w, p.files[i], m.files[i])
    requires forall i | 0 <= i < |p.files| :: Exportable(w, env.limits, p.files[i], contents[i])
    ensures ValidManifest(x, env.limits, m) <==> forall i | 0 <= i < |p.files| :: Dated(StampOf(w, p.files[i]))
  {
    hide CompletePlan, EntryFor, Exportable, ValidEntry, Sound, Dated, ClockFormats, Canonical, Rollouts;
    PlanShape(env, p);
    forall i | 0 <= i < |p.files|
      ensures ValidEntry(x, env.limits, m, i, Rollouts(m, i)) <==> Dated(StampOf(w, p.files[i]))
    {
      EntriesDistinct(w, p.files, m, i);
      EntryDated(w, x, env.limits, m, p.files[i], i, contents[i]);
    }
  }

  lemma PublicationPathSame(w: World, f: File, g: File)
    requires f.path == g.path && f.meta == g.meta && f.thread == g.thread && f.rollout == g.rollout &&
             f.prefix == g.prefix
    ensures PublicationPath(w, f) == PublicationPath(w, g)
  {
    hide ParseName, Base, Slashes;
    assert PublicationName(w, f) == PublicationName(w, g);
  }

  /** What a received file keeps of the exported one. */
  predicate Carried(f: File, g: File, content: Bytes, i: nat) {
    SameHistory(f, g) && g.modified == Microseconds(f.modified) && g.source == PayloadSlot(i) && g.stored.raw == content
  }

  /** An exported payload passes every check of the receiver. */
  lemma FileCarried(w: World, limits: Limits, i: nat, f: File, e: WireFile, content: Bytes)
    requires ClockFormats(w) && EntryOf(w, f) == Ok(e) && Exportable(w, limits, f, content)
    ensures ReceiveFile(w, limits, i, e, content).Ok?
    ensures Carried(f, ReceiveFile(w, limits, i, e, content).value, content, i)
  {
    hide Summarize, PublicationPath, PayloadSlot, ParseName, ManagedPath, PrerequisitePath, ValidRelative;
    EntryFacts(w, limits, f, e, content);
    PayloadPlain(i);
    var staged := Node(i, content, Microseconds(e.modified.instant));
    var read := Read(w, staged, Candidate(PayloadSlot(i), e.thread, e.rollout), None, limits, false);
    assert Decoded(w, PayloadSlot(i), content) == Stream(content, true);
    assert read.Ok?;
    PublicationPathSame(w, read.value.(path := e.path, prefix := e.prefix), f.(path := e.path));
  }

  lemma LineageCarried(env: Env, p: Plan, files: seq<File>)
    requires CompletePlan(env, p) && |files| == |p.files|
    requires forall i | 0 <= i < |files| :: SameHistory(p.files[i], files[i])
    ensures ValidLineage(files)
  {
    hide ReadFrom, Distinct;
    forall i | 0 < i < |files|
      ensures Inherits(files[i - 1], files[i])
    {
      assert Meets(p.files[i - 1], p.files[i - 1 + 1]);
      assert SameHistory(p.files[i - 1], files[i - 1]) && SameHistory(p.files[i], files[i]);
    }
  }

  // ---- the round trip ----

  /** A snapshot's plan and its exported stream. */
  ghost predicate Exported(w: World, x: Codecs, env: Env, p: Plan, now: nat -> Bytes, data: Bytes) {
    CollisionFree(w) && ClockFormats(w) && Sound(x, w) && env.w == w && env.limits.Valid() && CompletePlan(env, p) &&
    (forall f | f in p.files :: NamesRollout(f.source)) && Export(w, x, env.limits, p, now) == Ok(data)
  }

  lemma CopyIsCaptured(env: Env, f: File, content: Bytes)
    requires CollisionFree(env.w) && ReadFrom(env, f) && env.w.hash(content) == f.sha && NamesRollout(f.source)
    ensures content == ContentOf(env.w, f) && Exportable(env.w, env.limits, f, content)
  {
    hide Describes, NamesRollout;
    assert env.w.hash(content) == env.w.hash(ContentOf(env.w, f));
    SourceNames(f);
  }

  lemma SourceNames(f: File)
    requires NamesRollout(f.source) && f.path == TrimSuffix(f.source, ".zst")
    ensures HasSuffix(f.path, ".jsonl")
  {
  }

  /** Whatever a completed export emitted is what the snapshot captured. */
  lemma ExportedContents(w: World, x: Codecs, env: Env, p: Plan, now: nat -> Bytes, data: Bytes)
    requires Exported(w, x, env, p, now, data)
    ensures ManifestOf(w, x, env.limits, p).Ok? && CopyAll(w, p.files, now, |p.files|).Ok?
    ensures var contents := CopyAll(w, p.files, now, |p.files|).value;
            |contents| == |p.files| &&
            data == StreamBytes(x, ManifestOf(w, x, env.limits, p).value.1, contents) &&
            forall i | 0 <= i < |p.files| ::
              contents[i] == ContentOf(w, p.files[i]) && Exportable(w, env.limits, p.files[i], contents[i])
  {
    hide CollisionFree, Faithful, StreamBytes, CopyAll, EntriesOf, Exportable, ReadFrom, Joined, Distinct, ContentOf,
         NamesRollout;
    CopiesFacts(w, p.files, now, |p.files|);
    var contents := CopyAll(w, p.files, now, |p.files|).value;
    forall i | 0 <= i < |p.files|
      ensures contents[i] == ContentOf(w, p.files[i]) && Exportable(w, env.limits, p.files[i], contents[i])
    {
      assert p.files[i] in p.files;
      CopyIsCaptured(env, p.files[i], contents[i]);
    }
  }

  /** The received transfer is the exported plan: the same thread, the same rollouts in the same order with the same
      sizes, digests, metadata and prefix flags, and exactly the captured bytes. */
  ghost predicate CarriedOver(w: World, p: Plan, inc: Incoming) {
    inc.thread == p.thread && |inc.files| == |inc.payload| == |p.files| &&
    forall i | 0 <= i < |p.files| ::
      Carried(p.files[i], inc.files[i], inc.payload[i], i) && inc.payload[i] == ContentOf(w, p.files[i])
  }

  lemma ManifestFacts(w: World, x: Codecs, limits: Limits, p: Plan)
    requires Sound(x, w) && ManifestOf(w, x, limits, p).Ok?
    ensures var (m, encoded) := ManifestOf(w, x, limits, p).value;
            m == Manifest(VERSION, p.thread, m.files) && |m.files| == |p.files| &&
            (forall i | 0 <= i < |p.files| :: EntryFor(w, p.files[i], m.files[i])) &&
            x.decode(encoded) == Some(m) && 1 <= |encoded| <= limits.manifestBytes
  {
    hide Faithful, EntryOf;
    EntriesFacts(w, p.files);
  }

  /** The wire round trip, with its exact condition: receiving a completed export of a snapshot succeeds if and only if
      every file's modification time lies, in the exporting host's own zone, in the years 1970 to 2261, and then
      yields the plan with the captured bytes. */
  lemma ExportRoundTrips(w: World, x: Codecs, env: Env, p: Plan, now: nat -> Bytes, data: Bytes)
    requires Exported(w, x, env, p, now, data)
    ensures Receive(w, x, env.limits, Stream(data, true)).Ok? <==> forall i | 0 <= i < |p.files| ::
              Dated(StampOf(w, p.files[i]))
    ensures Receive(w, x, env.limits, Stream(data, true)).Ok? ==>
              CarriedOver(w, p, Receive(w, x, env.limits, Stream(data, true)).value)
  {
    hide CollisionFree, Sound, ClockFormats, StreamBytes, CopyAll, ManifestOf, Exportable, CompletePlan, ContentOf,
         NamesRollout, ValidManifest, Receive, ReceiveFile, EntryFor, Dated, Carried, ValidLineage;
    ExportedContents(w, x, env, p, now, data);
    var contents := CopyAll(w, p.files, now, |p.files|).value;
    var (m, encoded) := ManifestOf(w, x, env.limits, p).value;
    ManifestFacts(w, x, env.limits, p);
    ManifestValid(w, x, env, p, m, contents);
    if ValidManifest(x, env.limits, m) {
      RoundTripFiles(w, x, env, p, m, encoded, contents);
    } else {
      InvalidRejected(w, x, env.limits, m, encoded, contents);
    }
  }

  lemma RoundTripFiles(w: World, x: Codecs, env: Env, p: Plan, m: Manifest, encoded: Bytes, contents: seq<Bytes>)
    requires ClockFormats(w) && Sound(x, w) && env.limits.Valid() && CompletePlan(env, p)
    requires m == Manifest(VERSION, p.thread, m.files) && |m.files| == |p.files| == |contents|
    requires forall i | 0 <= i < |p.files| :: EntryFor(w, p.files[i], m.files[i])
    requires forall i | 0 <= i < |p.files| ::
               Exportable(w, env.limits, p.files[i], contents[i]) && contents[i] == ContentOf(w, p.files[i])
    requires x.decode(encoded) == Some(m) && 1 <= |encoded| <= env.limits.manifestBytes &&
             ValidManifest(x, env.limits, m)
    ensures var r := Receive(w, x, env.limits, Stream(StreamBytes(x, encoded, contents), true));
            r.Ok? && CarriedOver(w, p, r.value)
  {
    hide Sound, ClockFormats, StreamBytes, Exportable, CompletePlan, ContentOf, ValidManifest, Receive, ReceiveFile,
         EntryOf, ValidLineage, Carried;
    forall i | 0 <= i < |p.files|
      ensures ReceiveFile(w, env.limits, i, m.files[i], contents[i]).Ok?
      ensures Carried(p.files[i], ReceiveFile(w, env.limits, i, m.files[i], contents[i]).value, contents[i], i)
      ensures m.files[i].bytes == |contents[i]|
    {
      assert EntryFor(w, p.files[i], m.files[i]);
      FileCarried(w, env.limits, i, p.files[i], m.files[i], contents[i]);
      EntrySize(w, env.limits, p.files[i], m.files[i], contents[i]);
    }
    var files := seq(|p.files|, i requires 0 <= i < |p.files| => ReceiveFile(w, env.limits, i, m.files[i],
      contents[i]).value);
    CarriedHistory(p, files, contents);
    LineageCarried(env, p, files);
    StreamWritten(w, x, env.limits, m, encoded, contents, files);
  }

  lemma EntrySize(w: World, limits: Limits, f: File, e: WireFile, content: Bytes)
    requires EntryOf(w, f) == Ok(e) && Exportable(w, limits, f, content)
    ensures e.bytes == |content|
  {
    hide Describes, PublicationPath;
  }

  lemma CarriedHistory(p: Plan, files: seq<File>, contents: seq<Bytes>)
    requires |files| == |p.files| == |contents|
    requires forall i | 0 <= i < |files| :: Carried(p.files[i], files[i], contents[i], i)
    ensures forall i | 0 <= i < |files| :: SameHistory(p.files[i], files[i])
  {
    hide SameHistory;
  }
}
