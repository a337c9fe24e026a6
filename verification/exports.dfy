// Which snapshots can be exported, and as what: Export and copyPayload of internal/session/stream.go.

module Exports {
  import opened Model
  import opened Format
  import opened Rollout
  import opened Inspect
  import opened Lineage
  import opened Tar
  import opened Wire
  import opened Transfer

  /** Of what a pinned descriptor holds now, only as many bytes as were captured are looked at. */
  function Seen(f: File, now: Bytes): Bytes {
    if |f.stored.raw| <= |now| then now[..|f.stored.raw|] else now
  }

  /** They still begin with the captured contents, and a whole compressed file still decodes to nothing else. */
  predicate Intact(w: World, f: File, now: Bytes) {
    var d := if HasSuffix(f.source, ".zst") then w.inflate(Seen(f, now)) else Stream(Seen(f, now), true);
    ContentOf(w, f) <= d.data &&
    (HasSuffix(f.source, ".zst") && !f.prefix ==> d == Stream(ContentOf(w, f), true))
  }

  /** The manifest of a plan: version 1, its thread, and each file under its publication path with its identities, size,
      digest, kind and its time in the host's own zone. */
  predicate ManifestFor(w: World, p: Plan, m: Manifest) {
    m.version == 1 && m.thread == p.thread && |m.files| == |p.files| &&
    forall i | 0 <= i < |p.files| :: EntryFor(w, p.files[i], m.files[i])
  }

  predicate EntryFor(w: World, f: File, e: WireFile) {
    PublicationPath(w, f) == Ok(e.path) && e.thread == f.thread && e.rollout == f.rollout && e.bytes == f.bytes &&
    e.sha == f.sha && e.prefix == f.prefix && e.modified == Stamp(f.modified, w.zone(f.modified))
  }

  /** The captured contents of a plan, in its order. */
  function Contents(w: World, files: seq<File>): seq<Bytes> {
    if files == [] then [] else Contents(w, files[..|files| - 1]) + [ContentOf(w, files[|files| - 1])]
  }

  lemma CopyExactly(env: Env, f: File, now: Bytes, content: Bytes)
    requires CollisionFree(env.w) && ReadFrom(env, f)
    ensures CopyPayload(env.w, f, now, Exact(f)) == Ok(content) <==>
            Intact(env.w, f, now) && content == ContentOf(env.w, f)
  {
    hide Describes, ContentOf, HasSuffix;
    var d := Decoded(env.w, f.source, Seen(f, now));
    if f.bytes <= |d.data| {
      CapturedHash(env, f, d.data[..f.bytes]);
      if ContentOf(env.w, f) <= d.data {
        assert d.data[..f.bytes] == ContentOf(env.w, f);
      }
    }
  }

  lemma {:induction false} EntriesExactly(w: World, files: seq<File>, entries: seq<WireFile>)
    ensures EntriesOf(w, files) == Ok(entries) <==>
            |entries| == |files| && forall i | 0 <= i < |files| :: EntryFor(w, files[i], entries[i])
  {
    hide PublicationPath;
    if files == [] {
      assert EntriesOf(w, files) == Ok([]);
    } else {
      var init, last := files[..|files| - 1], files[|files| - 1];
      if entries != [] {
        EntriesExactly(w, init, entries[..|entries| - 1]);
        assert entries == entries[..|entries| - 1] + [entries[|entries| - 1]];
      }
      if EntriesOf(w, init).Ok? {
        EntriesExactly(w, init, EntriesOf(w, init).value);
      }
    }
  }

  lemma {:induction false} CopiesExactly(env: Env, files: seq<File>, now: nat -> Bytes, n: nat)
    requires CollisionFree(env.w) && n <= |files| && forall f | f in files :: ReadFrom(env, f)
    ensures CopyAll(env.w, files, now, n).Ok? <==> forall i | 0 <= i < n :: Intact(env.w, files[i], now(i))
    ensures CopyAll(env.w, files, now, n).Ok? ==>
              CopyAll(env.w, files, now, n) == Ok(Contents(env.w, files[..n]))
  {
    hide CollisionFree, ReadFrom, CopyPayload, Intact, ContentOf, Exact;
    if n > 0 {
      CopiesExactly(env, files, now, n - 1);
      var f := files[n - 1];
      assert f in files && files[..n][..n - 1] == files[..n - 1];
      CopyExactly(env, f, now(n - 1), ContentOf(env.w, f));
      if CopyPayload(env.w, f, now(n - 1), Exact(f)).Ok? {
        CopyExactly(env, f, now(n - 1), CopyPayload(env.w, f, now(n - 1), Exact(f)).value);
      }
    }
  }

  /** Export, exactly: a snapshot's plan is exported if and only if every file has a publication path, the manifest can
      be encoded within the limit, and what the descriptors hold has not been rewritten; and then as that manifest, the
      captured contents in the plan's order, and the completion record. */
  lemma ExportExactly(w: World, x: Codecs, env: Env, p: Plan, now: nat -> Bytes, out: Bytes)
    requires CollisionFree(w) && env.w == w && CompletePlan(env, p)
    ensures Export(w, x, env.limits, p, now) == Ok(out) <==>
            exists m :: ManifestFor(w, p, m) && x.encode(m).Some? && |x.encode(m).value| <= env.limits.manifestBytes &&
                        (forall i | 0 <= i < |p.files| :: Intact(w, p.files[i], now(i))) &&
                        out == StreamBytes(x, x.encode(m).value, Contents(w, p.files))
  {
    hide CollisionFree, ReadFrom, Intact, ContentOf, EntryFor, EntriesOf, CopyAll, StreamBytes, Joined, Distinct;
    CopiesExactly(env, p.files, now, |p.files|);
    assert p.files[..|p.files|] == p.files;
    forall m: Manifest | m.version == 1 && m.thread == p.thread
      ensures EntriesOf(w, p.files) == Ok(m.files) <==> ManifestFor(w, p, m)
    {
      EntriesExactly(w, p.files, m.files);
    }
    if ManifestOf(w, x, env.limits, p).Ok? {
      var m := ManifestOf(w, x, env.limits, p).value.0;
      assert m.version == 1 && m.thread == p.thread && ManifestFor(w, p, m);
    }
    forall m | ManifestFor(w, p, m)
      ensures m == Manifest(VERSION, p.thread, m.files) && EntriesOf(w, p.files) == Ok(m.files)
    {
    }
  }
}
