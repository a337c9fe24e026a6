// Snapshot, Export and Receive as they run, and a whole transfer from one home to another:
// internal/session/snapshot.go and stream.go.

module Transfer {
  import opened Model
  import opened Format
  import opened Rollout
  import opened Cutoff
  import opened Inspect
  import opened Lineage
  import opened Conflicts
  import opened Steps
  import opened Schedule
  import opened Comparison
  import opened Planning
  import opened Slots
  import opened Tar
  import opened Wire
  import opened Framing
  import opened RoundTrip
  import opened Retry
  import opened EndToEnd
  import opened Closure

  // ---- snapshot stability ----

  lemma {:induction false} CopiesGo(w: World, files: seq<File>, now: nat -> Bytes, n: nat)
    requires n <= |files| && forall i | 0 <= i < n :: CopyPayload(w, files[i], now(i), Exact(files[i])).Ok?
    ensures CopyAll(w, files, now, n).Ok?
  {
    hide CopyPayload, Exact;
    if n > 0 {
      CopiesGo(w, files, now, n - 1);
    }
  }

  /** The decoded bytes of the main rollout were all captured; an inherited one may have more behind its cutoff. */
  lemma AppendsTolerated(env: Env, f: File, now: Bytes)
    requires ReadFrom(env, f) && f.stored.raw <= now
    requires Exact(f) ==> Decoded(env.w, f.source, f.stored.raw) == Stream(ContentOf(env.w, f), true)
    ensures CopyPayload(env.w, f, now, Exact(f)) == Ok(ContentOf(env.w, f))
  {
    hide Describes, Exact, Decoded;
    assert now[..|f.stored.raw|] == f.stored.raw;
  }

  /** A compressed main rollout was read to its end. */
  lemma ReadWhole(w: World, node: Node, c: Candidate, limits: Limits, snapshot: bool)
    requires limits.Valid() && Read(w, node, c, None, limits, snapshot).Ok?
    ensures var f := Read(w, node, c, None, limits, snapshot).value;
            if HasSuffix(c.path, ".zst") || !snapshot
            then Decoded(w, c.path, node.raw) == Stream(ContentOf(w, f), true)
            else ContentOf(w, f) == node.raw[..AfterLastNewline(node.raw)] && f.bytes > 0
  {
    hide Summarize;
    var s := if snapshot then Captured(w, c.path, node.raw, None, limits.recordBytes).value else Decoded(w, c.path,
      node.raw);
    SummaryCovers(w, s, c.thread, None, limits);
    SummaryBounds(w, s, c.thread, None, limits);
  }

  /** The main rollout of a plan as its capture read it. */
  lemma MainCaptured(env: Env, thread: string, sel: Option<Selection>, after: Option<Selection>)
    requires Resolve(env, thread, sel, after).Ok?
    ensures var files := Resolve(env, thread, sel, after).value.files;
            files != [] && var f := files[|files| - 1];
            f.source in env.tree && f.stored == env.tree[f.source] &&
            if HasSuffix(f.source, ".zst") || !env.snapshot
            then Decoded(env.w, f.source, f.stored.raw) == Stream(ContentOf(env.w, f), true)
            else ContentOf(env.w, f) == f.stored.raw[..AfterLastNewline(f.stored.raw)]
  {
    hide Walk, MainForms, Read, Agree, ReadFrom, Joined, Distinct, ContentOf, Decoded;
    var id := ParseID(thread).value;
    MainFormsFacts(env, sel, id);
    var main := MainForms(env, sel, id).value;
    WalkFacts(env, Universe(env, main), sel, main, None, {}, 0);
    AgreeFacts(env, main, None);
    ReadWhole(env.w, env.tree[main[0].path], main[0], env.limits, env.snapshot);
    ReadPlace(env.w, env.tree[main[0].path], main[0], env.limits, env.snapshot);
  }

  lemma ReadPlace(w: World, node: Node, c: Candidate, limits: Limits, snapshot: bool)
    requires Read(w, node, c, None, limits, snapshot).Ok?
    ensures var f := Read(w, node, c, None, limits, snapshot).value; f.source == c.path && f.stored == node
  {
    hide Summarize, Captured, Decoded;
  }

  lemma CopyCaptured(env: Env, p: Plan, now: Bytes, i: nat)
    requires CompletePlan(env, p) && i < |p.files| && p.files[i].stored.raw <= now
    requires var f := p.files[|p.files| - 1];
             HasSuffix(f.source, ".zst") ==> Decoded(env.w, f.source, f.stored.raw) == Stream(ContentOf(env.w, f), true)
    ensures CopyPayload(env.w, p.files[i], now, Exact(p.files[i])) == Ok(ContentOf(env.w, p.files[i]))
  {
    hide CopyPayload, ReadFrom, Joined, Distinct, ContentOf, Decoded, HasSuffix;
    assert p.files[i] in p.files;
    AppendsTolerated(env, p.files[i], now);
  }

  lemma ExportGoes(w: World, x: Codecs, limits: Limits, p: Plan, now: nat -> Bytes)
    requires CopyAll(w, p.files, now, |p.files|).Ok?
    ensures Export(w, x, limits, p, now).Ok? <==> ManifestOf(w, x, limits, p).Ok?
  {
    hide CopyAll, ManifestOf, StreamBytes;
  }

  /** Snapshot stability. Let the pinned files be appended to in any way between capture and export: the export
      completes whenever its manifest can be written at all, and every payload is the captured bytes; of a plain main
      rollout those are the longest newline-terminated prefix at capture. */
  lemma SnapshotStable(w: World, x: Codecs, env: Env, thread: string, sel: Option<Selection>, after: Option<Selection>,
                       p: Plan,
                       now: nat -> Bytes)
    requires env.w == w && env.snapshot && Resolve(env, thread, sel, after) == Ok(p)
    requires forall i | 0 <= i < |p.files| :: p.files[i].stored.raw <= now(i)
    ensures p.files != [] && (Export(w, x, env.limits, p, now).Ok? <==> ManifestOf(w, x, env.limits, p).Ok?)
    ensures forall i | 0 <= i < |p.files| ::
              CopyPayload(w, p.files[i], now(i), Exact(p.files[i])) == Ok(ContentOf(w, p.files[i]))
    ensures var main := p.files[|p.files| - 1];
            !HasSuffix(main.source, ".zst") ==>
              ContentOf(w, main) == main.stored.raw[..AfterLastNewline(main.stored.raw)]
  {
    hide *;
    ResolveFacts(env, thread, sel, after);
    MainCaptured(env, thread, sel, after);
    forall i | 0 <= i < |p.files|
      ensures CopyPayload(w, p.files[i], now(i), Exact(p.files[i])) == Ok(ContentOf(w, p.files[i]))
    {
      CopyCaptured(env, p, now(i), i);
    }
    CopiesGo(w, p.files, now, |p.files|);
    ExportGoes(w, x, env.limits, p, now);
  }

  /** A pinned file whose captured bytes were rewritten cannot be exported: no completion record is written. */
  lemma RewrittenRefused(w: World, x: Codecs, env: Env, p: Plan, now: nat -> Bytes, i: nat)
    requires CollisionFree(w) && env.w == w && CompletePlan(env, p) && i < |p.files|
    requires var f := p.files[i];
             var section := if |now(i)| < |f.stored.raw| then now(i) else now(i)[..|f.stored.raw|];
             var d := Decoded(w, f.source, section).data;
             f.bytes <= |d| ==> d[..f.bytes] != ContentOf(w, f)
    ensures Export(w, x, env.limits, p, now).Err?
  {
    hide CollisionFree, ManifestOf, CopyAll, ReadFrom, Joined, Distinct, ContentOf, Decoded, StreamBytes, Exact;
    var f := p.files[i];
    assert f in p.files;
    if CopyAll(w, p.files, now, |p.files|).Ok? {
      CopiesFacts(w, p.files, now, |p.files|);
      assert CopyPayload(w, f, now(i), Exact(f)).Ok?;
      var section := if |now(i)| < |f.stored.raw| then now(i) else now(i)[..|f.stored.raw|];
      CapturedHash(env, f, Decoded(w, f.source, section).data[..f.bytes]);
    }
  }

  lemma CapturedHash(env: Env, f: File, content: Bytes)
    requires CollisionFree(env.w) && ReadFrom(env, f)
    ensures env.w.hash(content) == f.sha ==> content == ContentOf(env.w, f)
  {
    hide Describes, ContentOf;
    if env.w.hash(content) == f.sha {
      assert env.w.hash(content) == env.w.hash(ContentOf(env.w, f));
    }
  }

  // ---- an export that stops early ----

  lemma {:induction false} PayloadsRun(w: World, x: Codecs, limits: Limits, m: Manifest, encoded: Bytes,
                                       contents: seq<Bytes>,
                                       n: nat, more: Bytes, s: Stream)
    requires Faithful(x.tar) && n <= |contents| <= |m.files| && Carriable(m)
    requires forall i | 0 <= i < |contents| :: |contents[i]| == m.files[i].bytes
    requires s.data == PayloadBytes(x, encoded, contents, n) + more
    requires ReceivePayloads(w, x, limits, m, encoded, s, n).Ok?
    ensures ReceivePayloads(w, x, limits, m, encoded, s, n).value.rest == more
    decreases n
  {
    hide Faithful, Expect, ReceiveFile, PayloadName, Pending, PaddingDue;
    if n == 0 {
      assert s.data == more;
    } else {
      var tail := Zero(PaddingDue(encoded, contents, n - 1)) +
                  (x.tar.write(PayloadName(n - 1), |contents[n - 1]|) + contents[n - 1]) + more;
      PayloadsSplit(x, encoded, contents, n, more);
      PayloadsRun(w, x, limits, m, encoded, contents, n - 1, tail, s);
      PayloadWritten(x, m, encoded, contents, n - 1, more, Stream(tail, s.clean));
    }
  }

  /** A receiver that fails at one payload fails with the same error, whatever comes after. */
  lemma {:induction false} PayloadsStop(w: World, x: Codecs, limits: Limits, m: Manifest, encoded: Bytes, s: Stream,
                                        k: nat, n: nat)
    requires k <= n <= |m.files| && ReceivePayloads(w, x, limits, m, encoded, s, k).Err?
    ensures ReceivePayloads(w, x, limits, m, encoded, s, n) == Err(ReceivePayloads(w, x, limits, m, encoded, s,
            k).error)
    decreases n
  {
    hide Expect, ReceiveFile, PayloadName, Pending;
    if k < n {
      PayloadsStop(w, x, limits, m, encoded, s, k, n - 1);
    }
  }

  /** Part of one payload member, then nothing: at best the whole payload is read, and nothing after it. */
  lemma PartialRead(x: Codecs, m: Manifest, encoded: Bytes, contents: seq<Bytes>, part: Bytes, s: Stream)
    requires Faithful(x.tar) && |contents| < |m.files| && |part| <= m.files[|contents|].bytes && Carriable(m)
    requires forall i | 0 <= i < |contents| :: |contents[i]| == m.files[i].bytes
    requires var n := |contents|;
             s.data == Zero(PaddingDue(encoded, contents, n)) + x.tar.write(PayloadName(n), m.files[n].bytes) + part
    ensures var n := |contents|;
            var r := Expect(x.tar, s, Pending(m, encoded, n), PayloadName(n), m.files[n].bytes);
            r.Ok? ==> r.value.1 == []
  {
    hide Faithful, Pad, PayloadName, Next, Writable;
    var n := |contents|;
    PayloadNamed(n, m.files[n].bytes);
    HeaderFound(x.tar, PaddingDue(encoded, contents, n), PayloadName(n), m.files[n].bytes, part, s);
  }

  /** What an export that fails has written: the manifest, whole payloads, and part of one more. */
  predicate Partial(x: Codecs, m: Manifest, encoded: Bytes, contents: seq<Bytes>, part: Bytes, data: Bytes) {
    |contents| < |m.files| && |part| <= m.files[|contents|].bytes && |encoded| <= MAX_INT64 &&
    (forall i | 0 <= i < |contents| :: |contents[i]| == m.files[i].bytes) &&
    var n := |contents|;
    data == Opening(x, encoded) + (PayloadBytes(x, encoded, contents, n) +
            (Zero(PaddingDue(encoded, contents, n)) + x.tar.write(PayloadName(n), m.files[n].bytes) + part))
  }

  /** A stream that stops inside its payloads is accepted by no receiver, whether its reader sees an end or an error. */
  lemma PartialRejected(w: World, x: Codecs, limits: Limits, m: Manifest, encoded: Bytes, contents: seq<Bytes>,
                        part: Bytes,
                        s: Stream)
    requires Faithful(x.tar) && x.decode(encoded) == Some(m) && encoded != []
    requires Partial(x, m, encoded, contents, part, s.data)
    ensures Receive(w, x, limits, s).Err?
  {
    hide Faithful, Opening, PayloadBytes, PaddingDue, Pending, Expect, ReceiveFile, PayloadName, ValidManifest,
         ValidLineage, Trailer, ReceiveManifest;
    var n := |contents|;
    var behind := Zero(PaddingDue(encoded, contents, n)) + x.tar.write(PayloadName(n), m.files[n].bytes) + part;
    var rest := PayloadBytes(x, encoded, contents, n) + behind;
    ManifestRun(x, limits, m, encoded, rest, s);
    var tail := Stream(rest, s.clean);
    if ReceiveManifest(x, limits, s).Ok? {
      ManifestAccepted(x, limits, m, encoded, s);
      if ReceivePayloads(w, x, limits, m, encoded, tail, n).Ok? {
        PayloadsRun(w, x, limits, m, encoded, contents, n, behind, tail);
        PartialRead(x, m, encoded, contents, part, Stream(behind, s.clean));
        Exhausted(w, x, limits, m, encoded, tail, n);
      } else {
        PayloadsStop(w, x, limits, m, encoded, tail, n, |m.files|);
      }
    }
  }

  lemma ManifestAccepted(x: Codecs, limits: Limits, m: Manifest, encoded: Bytes, s: Stream)
    requires ReceiveManifest(x, limits, s).Ok? && ReceiveManifest(x, limits, s).value.0 == m
    ensures Carriable(m)
  {
    hide Next, ValidManifest, Carriable;
    ValidCarriable(x, limits, m);
  }

  lemma ManifestRun(x: Codecs, limits: Limits, m: Manifest, encoded: Bytes, more: Bytes, s: Stream)
    requires Faithful(x.tar) && x.decode(encoded) == Some(m) && 1 <= |encoded| <= MAX_INT64
    requires s.data == Opening(x, encoded) + more
    ensures ReceiveManifest(x, limits, s).Ok? ==> ReceiveManifest(x, limits, s) == Ok((m, encoded, more))
  {
    hide Faithful, Next, ValidManifest;
    if |encoded| <= limits.manifestBytes {
      ManifestWritten(x, limits, m, encoded, more, s);
    } else {
      assert Zero(0) == [];
      assert s.data == Zero(0) + (x.tar.write(MANIFEST, |encoded|) + encoded) + more;
      MemberRead(x.tar, 0, MANIFEST, encoded, more, s);
    }
  }

  /** With nothing left after the n-th payload, the receiver fails at the next member. */
  lemma Exhausted(w: World, x: Codecs, limits: Limits, m: Manifest, encoded: Bytes, s: Stream, n: nat)
    requires n < |m.files| && ReceivePayloads(w, x, limits, m, encoded, s, n).Ok?
    requires var before := ReceivePayloads(w, x, limits, m, encoded, s, n).value;
             var r := Expect(x.tar, Stream(before.rest, s.clean), Pending(m, encoded, n), PayloadName(n),
               m.files[n].bytes);
             r.Ok? ==> r.value.1 == []
    ensures var r := ReceivePayloads(w, x, limits, m, encoded, s, |m.files|);
            r.Ok? ==> ReceiveCompletion(x, m, encoded, Stream(r.value.rest, s.clean)).Err?
  {
    hide Expect, ReceiveFile, PayloadName, Pending;
    NothingExpected(x.tar, s.clean, Pending(m, encoded, |m.files|), COMPLETE, SEAL_BYTES);
    var next := ReceivePayloads(w, x, limits, m, encoded, s, n + 1);
    if next.Err? {
      PayloadsStop(w, x, limits, m, encoded, s, n + 1, |m.files|);
    } else if n + 1 < |m.files| {
      NothingExpected(x.tar, s.clean, Pending(m, encoded, n + 1), PayloadName(n + 1), m.files[n + 1].bytes);
      assert ReceivePayloads(w, x, limits, m, encoded, s, n + 2).Err?;
      PayloadsStop(w, x, limits, m, encoded, s, n + 2, |m.files|);
    }
  }

  lemma EmptyRejected(w: World, x: Codecs, limits: Limits, clean: bool)
    ensures Receive(w, x, limits, Stream([], clean)).Err?
  {
    hide ReceivePayloads, ReceiveCompletion, ValidManifest, ValidLineage;
  }

  // ---- the operations of the source ----

  method CopyFrom(w: World, f: File, now: Bytes, exact: bool) returns (r: Result<()>, written: Bytes)
    ensures var c := CopyPayload(w, f, now, exact); (r.Ok? <==> c.Ok?) && (r.Ok? ==> written == c.value) && (r.Err? ==>
            r.error == c.error)
    ensures |written| <= f.bytes
  {
    var section := if |now| < |f.stored.raw| then now else now[..|f.stored.raw|];
    var input := Decoded(w, f.source, section);
    if |input.data| < f.bytes {
      return Err(if input.clean then Truncated else ReadFailed), input.data;
    }
    written := input.data[..f.bytes];
    if w.hash(written) != f.sha {
      return Err(SourceChanged), written;
    }
    if exact && (|input.data| != f.bytes || !input.clean) {
      return Err(SourceChanged), written;
    }
    return Ok(()), written;
  }

  /** Every representation an inspection with this outcome has read. */
  function Inspected(env: Env, main: seq<Candidate>, files: seq<File>): seq<Candidate> {
    if |files| <= 1 then main else ByRollout(env.inv, files[0].rollout) + Inspected(env, main, files[1..])
  }

  lemma ResolvedForms(env: Env, thread: string, sel: Option<Selection>, after: Option<Selection>)
    ensures Resolve(env, thread, sel, after).Ok? ==>
              ParseID(thread).Some? && MainForms(env, sel, ParseID(thread).value).Ok?
  {
    hide MainForms, Walk;
  }

  /** Pinned source files by path; what a descriptor reads may change until the export. */
  class Snapshot {
    var plan: Plan
    var files: map<string, Node>

    constructor ()
      ensures plan == Plan("", []) && files == map[]
    {
      plan, files := Plan("", []), map[];
    }

    /** The home's Snapshot: inspect, pinning every file that is read on the way: all representations of the selected
        conversation and of every rollout it inherits. */
    method Capture(env: Env, thread: string, sel: Option<Selection>, after: Option<Selection>) returns (r: Result<()>)
      requires env.snapshot
      modifies this
      ensures sel != after ==> r.Err? && files == map[]
      ensures var p := Resolve(env, thread, sel, after);
              if p.Err? then r == Err(p.error) && files == map[]
              else r.Ok? && plan == p.value && Pinned() && ParseID(thread).Some? &&
                   MainForms(env, sel, ParseID(thread).value).Ok? &&
                   Holds(env, Inspected(env, MainForms(env, sel, ParseID(thread).value).value, plan.files))
    {
      hide Resolve, MainForms, ByRollout;
      var p := InspectThread(env, thread, sel, after);
      files := map[];
      if p.Err? {
        return Err(p.error);
      }
      plan := p.value;
      PinnedSources(env, thread, sel, after);
      for i := 0 to |plan.files|
        invariant plan == p.value
        invariant forall j | 0 <= j < i :: plan.files[j].source in files
        invariant forall j | 0 <= j < |plan.files| ::
                  plan.files[j].source in env.tree && plan.files[j].stored == env.tree[plan.files[j].source]
        invariant forall path | path in files :: path in env.tree && files[path] == env.tree[path]
      {
        files := files[plan.files[i].source := plan.files[i].stored];
      }
      ResolvedForms(env, thread, sel, after);
      PinAll(env, Inspected(env, MainForms(env, sel, ParseID(thread).value).value, plan.files));
      return Ok(());
    }

    /** These representations are pinned as they are. */
    predicate Holds(env: Env, cs: seq<Candidate>)
      reads this
    {
      forall c | c in cs && c.path in env.tree :: c.path in files && files[c.path] == env.tree[c.path]
    }

    method PinAll(env: Env, cs: seq<Candidate>)
      requires forall path | path in files :: path in env.tree && files[path] == env.tree[path]
      modifies `files
      ensures Holds(env, cs) && old(files).Keys <= files.Keys
      ensures forall path | path in files :: path in env.tree && files[path] == env.tree[path]
    {
      ghost var start := files.Keys;
      for i := 0 to |cs|
        invariant start <= files.Keys
        invariant forall path | path in files :: path in env.tree && files[path] == env.tree[path]
        invariant forall j | 0 <= j < i && cs[j].path in env.tree :: cs[j].path in files
      {
        if cs[i].path in env.tree {
          files := files[cs[i].path := env.tree[cs[i].path]];
        }
      }
    }

    /** Every planned file is pinned as captured. */
    predicate Pinned()
      reads this
    {
      forall i | 0 <= i < |plan.files| :: plan.files[i].source in files &&
        files[plan.files[i].source] == plan.files[i].stored
    }

    method Close()
      modifies this
      ensures files == map[] && plan == old(plan)
    {
      while files.Keys != {}
        invariant plan == old(plan)
        decreases |files.Keys|
      {
        var path :| path in files.Keys;
        ghost var before := files.Keys;
        files := files - {path};
        assert files.Keys == before - {path};
      }
    }

    /** Export: `now(i)` is what the i-th pinned descriptor holds when its turn comes. A completed export is the stream
        of the captured plan; one that fails leaves bytes no receiver accepts. */
    method Export(w: World, x: Codecs, limits: Limits, now: nat -> Bytes) returns (r: Result<()>, out: Bytes)
      ensures plan.files == [] || (exists i | 0 <= i < |plan.files| :: plan.files[i].source !in files) ==> r.Err?
      ensures plan.files != [] && (forall i | 0 <= i < |plan.files| :: plan.files[i].source in files) ==>
                var e := Wire.Export(w, x, limits, plan, now);
                (r.Ok? <==> e.Ok?) && (r.Ok? ==> out == e.value) && (r.Err? ==> r.error == e.error)
      ensures Sound(x, w) && r.Err? ==>
                forall v: World, l: Limits, clean: bool :: Receive(v, x, l, Stream(out, clean)).Err?
    {
      hide EntriesOf, CopyAll, Sound, Receive, StreamBytes;
      out := [];
      Unstarted(w, x);
      if plan.files == [] || files == map[] {
        assert plan.files == [] || plan.files[0].source !in files;
        return Err(EmptyIncoming), out;
      }
      var entries := Entries(w, plan.files, files);
      if entries.Err? {
        return Err(entries.error), out;
      }
      EntriesCount(w, plan.files);
      var m := Manifest(VERSION, plan.thread, entries.value);
      var encoded := x.encode(m);
      if encoded.None? {
        return Err(Unencodable), out;
      }
      if |encoded.value| > limits.manifestBytes {
        return Err(ManifestTooLong), out;
      }
      r, out := WriteStream(w, x, plan, m, encoded.value, now);
    }
  }

  /** Nothing written is nothing accepted. */
  lemma Unstarted(w: World, x: Codecs)
    ensures Sound(x, w) ==> forall v: World, l: Limits, clean: bool :: Receive(v, x, l, Stream([], clean)).Err?
  {
    hide Sound, Receive;
    forall v: World, l: Limits, clean: bool
      ensures Receive(v, x, l, Stream([], clean)).Err?
    {
      EmptyRejected(v, x, l, clean);
    }
  }

  lemma EntriesCount(w: World, files: seq<File>)
    ensures EntriesOf(w, files).Ok? ==> |EntriesOf(w, files).value| == |files|
  {
    hide EntryOf;
    if EntriesOf(w, files).Ok? {
      EntriesFacts(w, files);
    }
  }

  /** The manifest loop of Export: every file must still be pinned and have a publication path. */
  method Entries(w: World, files: seq<File>, pinned: map<string, Node>) returns (r: Result<seq<WireFile>>)
    ensures (forall i | 0 <= i < |files| :: files[i].source in pinned) ==> r == EntriesOf(w, files)
    ensures r.Ok? ==> r == EntriesOf(w, files) && forall i | 0 <= i < |files| :: files[i].source in pinned
  {
    hide EntryOf;
    var entries: seq<WireFile> := [];
    for i := 0 to |files|
      invariant forall j | 0 <= j < i :: files[j].source in pinned
      invariant EntriesOf(w, files[..i]) == Ok(entries)
    {
      assert files[..i + 1][..i] == files[..i];
      if files[i].source !in pinned {
        return Err(SourceChanged);
      }
      var entry := EntryOf(w, files[i]);
      if entry.Err? {
        EntriesStop(w, files, i + 1);
        return Err(entry.error);
      }
      entries := entries + [entry.value];
    }
    assert files[..|files|] == files;
    return Ok(entries);
  }

  /** A failing entry fails the manifest with its own error. */
  lemma {:induction false} EntriesStop(w: World, files: seq<File>, n: nat)
    requires n <= |files| && EntriesOf(w, files[..n]).Err?
    ensures EntriesOf(w, files) == Err(EntriesOf(w, files[..n]).error)
    decreases |files| - n
  {
    hide EntryOf;
    if n < |files| {
      assert files[..n + 1][..n] == files[..n];
      EntriesStop(w, files, n + 1);
    } else {
      assert files[..n] == files;
    }
  }

  lemma PinnedSources(env: Env, thread: string, sel: Option<Selection>, after: Option<Selection>)
    ensures var p := Resolve(env, thread, sel, after);
            p.Ok? ==> forall i | 0 <= i < |p.value.files| ::
              p.value.files[i].source in env.tree && p.value.files[i].stored == env.tree[p.value.files[i].source]
  {
    hide Resolve, Describes, AdmittedMetadata, ContentOf, Joined, Distinct;
    var p := Resolve(env, thread, sel, after);
    if p.Ok? {
      ResolveFacts(env, thread, sel, after);
      forall i | 0 <= i < |p.value.files|
        ensures p.value.files[i].source in env.tree && p.value.files[i].stored == env.tree[p.value.files[i].source]
      {
        assert p.value.files[i] in p.value.files;
      }
    }
  }

  lemma {:induction false} CopiesStop(w: World, files: seq<File>, now: nat -> Bytes, i: nat, n: nat)
    requires i <= n <= |files| && CopyAll(w, files, now, i).Err?
    ensures CopyAll(w, files, now, n) == Err(CopyAll(w, files, now, i).error)
    decreases n
  {
    hide CopyPayload, Exact;
    if i < n {
      CopiesStop(w, files, now, i, n - 1);
    }
  }

  /** The members of a stream, one after the other. */
  method WriteStream(w: World, x: Codecs, p: Plan, m: Manifest, encoded: Bytes, now: nat -> Bytes)
    returns (r: Result<()>, out: Bytes)
    requires |m.files| == |p.files| && EntriesOf(w, p.files) == Ok(m.files) && x.encode(m) == Some(encoded)
    requires |encoded| <= MAX_INT64
    ensures var c := CopyAll(w, p.files, now, |p.files|);
            (r.Ok? <==> c.Ok?) && (r.Ok? ==> out == StreamBytes(x, encoded, c.value)) && (r.Err? ==> r.error == c.error)
    ensures Sound(x, w) && r.Err? ==>
            forall v: World, l: Limits, clean: bool :: Receive(v, x, l, Stream(out, clean)).Err?
  {
    hide *;
    var tar := new Writer(x.tar);
    tar.WriteHeader(MANIFEST, |encoded|);
    tar.Write(encoded);
    var contents: seq<Bytes> := [];
    WrittenFirst(w, x, p, encoded, now, tar.out);
    EntrySizes(w, p.files, m.files);
    for i := 0 to |p.files|
      invariant fresh(tar) && tar.codec == x.tar
      invariant CopyAll(w, p.files, now, i) == Ok(contents) && |contents| == i
      invariant forall j | 0 <= j < i :: |contents[j]| == m.files[j].bytes
      invariant Written(x, encoded, contents, tar.out, tar.pending)
    {
      var f := p.files[i];
      ghost var before, due := tar.out, tar.pending;
      tar.WriteHeader(PayloadName(i), f.bytes);
      var copied, written := CopyFrom(w, f, now(i), Exact(f));
      tar.Write(written);
      CopyNext(w, p.files, now, i);
      if copied.Err? {
        CopiesStop(w, p.files, now, i + 1, |p.files|);
        WrittenPart(w, x, m, encoded, contents, written, before, due, tar.out);
        return Err(copied.error), tar.out;
      }
      CopySize(w, f, now(i));
      WrittenNext(x, encoded, contents, written, before, due, tar.out);
      contents := contents + [written];
    }
    ghost var before, due := tar.out, tar.pending;
    tar.WriteHeader(COMPLETE, SEAL_BYTES);
    tar.Write(x.seal(encoded));
    tar.Close();
    WrittenLast(x, encoded, contents, before, due, tar.out);
    return Ok(()), tar.out;
  }

  /** The manifest and these payloads have been written; `pending` bytes of padding are due. */
  predicate Written(x: Codecs, encoded: Bytes, contents: seq<Bytes>, out: Bytes, pending: nat) {
    out == Opening(x, encoded) + PayloadBytes(x, encoded, contents, |contents|) &&
    pending == PaddingDue(encoded, contents, |contents|)
  }

  lemma WrittenFirst(w: World, x: Codecs, p: Plan, encoded: Bytes, now: nat -> Bytes, out: Bytes)
    requires out == [] + Zero(0) + x.tar.write(MANIFEST, |encoded|) + encoded
    ensures Written(x, encoded, [], out, Pad(|encoded|)) && CopyAll(w, p.files, now, 0) == Ok([])
  {
    hide Pad;
  }

  lemma WrittenNext(x: Codecs, encoded: Bytes, contents: seq<Bytes>, last: Bytes, before: Bytes, due: nat, out: Bytes)
    requires Written(x, encoded, contents, before, due)
    requires out == before + Zero(due) + x.tar.write(PayloadName(|contents|), |last|) + last
    ensures Written(x, encoded, contents + [last], out, Pad(|last|))
  {
    hide Pad, PayloadName, Opening, PayloadBytes, Zero;
    var n := |contents|;
    PayloadsGrow(x, encoded, contents, last);
    DueNext(encoded, contents, last);
    var header := x.tar.write(PayloadName(n), |last|);
    assert Opening(x, encoded) + (PayloadBytes(x, encoded, contents, n) + Zero(due) + header + last) == out;
  }

  lemma WrittenPart(w: World, x: Codecs, m: Manifest, encoded: Bytes, contents: seq<Bytes>, part: Bytes, before: Bytes,
                    due: nat,
                    out: Bytes)
    requires Written(x, encoded, contents, before, due) && x.encode(m) == Some(encoded) && |encoded| <= MAX_INT64
    requires |contents| < |m.files| && |part| <= m.files[|contents|].bytes
    requires forall i | 0 <= i < |contents| :: |contents[i]| == m.files[i].bytes
    requires out == before + Zero(due) + x.tar.write(PayloadName(|contents|), m.files[|contents|].bytes) + part
    ensures Sound(x, w) ==> forall v: World, l: Limits, clean: bool :: Receive(v, x, l, Stream(out, clean)).Err?
  {
    hide Pad, PayloadName, Opening, PayloadBytes, Zero, PaddingDue, Partial, Sound, Receive;
    PartialIs(x, m, encoded, contents, part, out);
    PartialUnread(w, x, m, encoded, contents, part, out);
  }

  lemma WrittenLast(x: Codecs, encoded: Bytes, contents: seq<Bytes>, before: Bytes, due: nat, out: Bytes)
    requires Written(x, encoded, contents, before, due)
    requires out == before + Zero(due) + x.tar.write(COMPLETE,
             SEAL_BYTES) + x.seal(encoded) + Zero(Pad(SEAL_BYTES)) + Zero(2 * BLOCK)
    ensures out == StreamBytes(x, encoded, contents)
  {
    hide Pad, Opening, PayloadBytes, PaddingDue, Zero;
    StreamIs(x, encoded, contents, out);
  }

  lemma CopyNext(w: World, files: seq<File>, now: nat -> Bytes, i: nat)
    requires i < |files| && CopyAll(w, files, now, i).Ok?
    ensures var c := CopyPayload(w, files[i], now(i), Exact(files[i]));
            CopyAll(w, files, now, i + 1) == if c.Ok? then Ok(CopyAll(w, files, now,
              i).value + [c.value]) else Err(c.error)
  {
    hide CopyPayload, Exact;
  }

  lemma DueNext(encoded: Bytes, contents: seq<Bytes>, last: Bytes)
    ensures PaddingDue(encoded, contents + [last], |contents| + 1) == Pad(|last|)
  {
    hide Pad;
  }

  lemma StreamIs(x: Codecs, encoded: Bytes, contents: seq<Bytes>, out: Bytes)
    requires out == Opening(x, encoded) + PayloadBytes(x, encoded, contents, |contents|) +
                    Zero(PaddingDue(encoded, contents, |contents|)) + x.tar.write(COMPLETE,
                      SEAL_BYTES) + x.seal(encoded) +
                    Zero(Pad(SEAL_BYTES)) + Zero(2 * BLOCK)
    ensures out == StreamBytes(x, encoded, contents)
  {
    hide Pad, Opening, PayloadBytes, PaddingDue;
  }

  lemma EntrySizes(w: World, files: seq<File>, entries: seq<WireFile>)
    requires EntriesOf(w, files) == Ok(entries)
    ensures |entries| == |files| && forall i | 0 <= i < |files| :: entries[i].bytes == files[i].bytes
  {
    hide PublicationPath;
    EntriesFacts(w, files);
  }

  lemma CopySize(w: World, f: File, now: Bytes)
    requires CopyPayload(w, f, now, Exact(f)).Ok?
    ensures |CopyPayload(w, f, now, Exact(f)).value| == f.bytes
  {
    hide Decoded, Exact;
  }

  lemma {:induction false} PayloadsSame(x: Codecs, encoded: Bytes, a: seq<Bytes>, b: seq<Bytes>, n: nat)
    requires n <= |a| && a <= b
    ensures PayloadBytes(x, encoded, a, n) == PayloadBytes(x, encoded, b, n)
  {
    hide PayloadName, Pad;
    if n > 0 {
      PayloadsSame(x, encoded, a, b, n - 1);
    }
  }

  lemma PayloadsGrow(x: Codecs, encoded: Bytes, contents: seq<Bytes>, last: Bytes)
    ensures var n := |contents|;
            PayloadBytes(x, encoded, contents + [last], n + 1) ==
            PayloadBytes(x, encoded, contents, n) + Zero(PaddingDue(encoded, contents,
              n)) + x.tar.write(PayloadName(n), |last|) + last
  {
    hide PayloadName, Pad;
    PayloadsSame(x, encoded, contents, contents + [last], |contents|);
  }

  lemma PartialIs(x: Codecs, m: Manifest, encoded: Bytes, contents: seq<Bytes>, part: Bytes, data: Bytes)
    requires |contents| < |m.files| && |part| <= m.files[|contents|].bytes && |encoded| <= MAX_INT64
    requires forall i | 0 <= i < |contents| :: |contents[i]| == m.files[i].bytes
    requires var n := |contents|;
             data == Opening(x, encoded) + PayloadBytes(x, encoded, contents, n) + Zero(PaddingDue(encoded, contents,
               n)) +
                     x.tar.write(PayloadName(n), m.files[n].bytes) + part
    ensures Partial(x, m, encoded, contents, part, data)
  {
    hide Opening, PayloadBytes, PayloadName, PaddingDue;
  }

  lemma PartialUnread(w: World, x: Codecs, m: Manifest, encoded: Bytes, contents: seq<Bytes>, part: Bytes, data: Bytes)
    requires Partial(x, m, encoded, contents, part, data) && x.encode(m) == Some(encoded)
    ensures Sound(x, w) ==> forall v: World, l: Limits, clean: bool :: Receive(v, x, l, Stream(data, clean)).Err?
  {
    hide Receive, Partial, Faithful;
    if Sound(x, w) {
      forall v: World, l: Limits, clean: bool
        ensures Receive(v, x, l, Stream(data, clean)).Err?
      {
        PartialRejectedBy(w, v, x, l, m, encoded, contents, part, Stream(data, clean));
      }
    }
  }

  lemma PartialRejectedBy(w: World, v: World, x: Codecs, limits: Limits, m: Manifest, encoded: Bytes,
                          contents: seq<Bytes>,
                          part: Bytes, s: Stream)
    requires Sound(x, w) && x.encode(m) == Some(encoded) && Partial(x, m, encoded, contents, part, s.data)
    ensures Receive(v, x, limits, s).Err?
  {
    hide Receive, Partial, Faithful;
    PartialRejected(v, x, limits, m, encoded, contents, part, s);
  }
}
