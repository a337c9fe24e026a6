// Receive as it runs, and what a whole transfer preserves: internal/session/stream.go with publish.go and inspect.go.

module Receiver {
  import opened Model
  import opened Format
  import opened Rollout
  import opened Inspect
  import opened Lineage
  import opened Conflicts
  import opened Steps
  import opened Schedule
  import opened Planning
  import opened Slots
  import opened Tar
  import opened Wire
  import opened Framing
  import opened RoundTrip
  import opened Transfer
  import opened Retry
  import opened EndToEnd
  import opened Closure

  /** The next member, which must be the named one of the given size, and its data. */
  method ReadMember(r: Reader, name: string, size: nat) returns (b: Result<Bytes>)
    requires r.Valid()
    modifies r
    ensures r.Valid()
    ensures var e := Expect(r.codec, old(r.Rest()), old(r.pad), name, size);
            (b.Ok? <==> e.Ok?) && (b.Err? ==> b.error == e.error) &&
            (b.Ok? ==> e == Ok((b.value, r.Rest().data)) && r.pad == Pad(size))
  {
    hide Next, Pad;
    var next := r.Advance();
    match next
    case End(_) =>
      return Err(Truncated);
    case Failed =>
      return Err(BadMember);
    case At(h, rest) =>
      if h.name != name || !h.regular || h.link != "" || h.size != size {
        return Err(BadMember);
      }
      b := r.ReadBody(size);
  }

  /** One payload: write it to its slot, then read the staged rollout back. */
  method StageFile(w: World, limits: Limits, i: nat, entry: WireFile, content: Bytes) returns (r: Result<File>)
    requires limits.Valid()
    ensures r == ReceiveFile(w, limits, i, entry, content)
  {
    hide Read, PublicationPath;
    var slot := PayloadSlot(i);
    if w.hash(content) != entry.sha {
      return Err(ChecksumMismatch);
    }
    var staged := Node(i, content, Microseconds(entry.modified.instant));
    var file := ReadRolloutFile(w, staged, Candidate(slot, entry.thread, entry.rollout), None, limits, false);
    if file.Err? {
      return Err(file.error);
    }
    var f := file.value.(path := entry.path, prefix := entry.prefix);
    if f.bytes != entry.bytes || f.sha != entry.sha {
      return Err(SourceChanged);
    }
    var want := PublicationPath(w, f);
    if want.Err? {
      return Err(want.error);
    }
    if want.value != entry.path {
      return Err(BadPath);
    }
    return Ok(f);
  }

  lemma PayloadsStep(w: World, x: Codecs, limits: Limits, m: Manifest, encoded: Bytes, s: Stream, n: nat)
    requires n < |m.files| && ReceivePayloads(w, x, limits, m, encoded, s, n).Ok?
    ensures var before := ReceivePayloads(w, x, limits, m, encoded, s, n).value;
            var e := Expect(x.tar, Stream(before.rest, s.clean), Pending(m, encoded, n), PayloadName(n),
              m.files[n].bytes);
            ReceivePayloads(w, x, limits, m, encoded, s, n + 1) ==
            if e.Err? then Err(e.error)
            else
              var f := ReceiveFile(w, limits, n, m.files[n], e.value.0);
              if f.Err? then Err(f.error)
              else Ok(Payloads(before.files + [f.value], before.contents + [e.value.0], e.value.1))
  {
    hide Expect, ReceiveFile, PayloadName, Pending;
  }

  /** The member loop of Receive. */
  method ReadPayloads(r: Reader, w: World, x: Codecs, limits: Limits, m: Manifest, encoded: Bytes)
    returns (p: Result<(seq<File>, seq<Bytes>)>)
    requires limits.Valid() && r.Valid() && r.codec == x.tar && r.pad == Pad(|encoded|)
    modifies r
    ensures r.Valid()
    ensures var e := ReceivePayloads(w, x, limits, m, encoded, old(r.Rest()), |m.files|);
            (p.Ok? <==> e.Ok?) && (p.Err? ==> p.error == e.error) &&
            (p.Ok? ==> p.value == (e.value.files, e.value.contents) && e.value.rest == r.Rest().data &&
                       r.pad == Pending(m, encoded, |m.files|))
  {
    hide *;
    ghost var s := r.Rest();
    var files: seq<File> := [];
    var contents: seq<Bytes> := [];
    StartPayloads(w, x, limits, m, encoded, s);
    RestIs(r);
    for i := 0 to |m.files|
      invariant r.Valid() && r.Rest().clean == s.clean
      invariant r.pad == Pending(m, encoded, i)
      invariant ReceivePayloads(w, x, limits, m, encoded, s, i) == Ok(Payloads(files, contents, r.Rest().data))
    {
      PayloadsStep(w, x, limits, m, encoded, s, i);
      RestIs(r);
      var content := ReadMember(r, PayloadName(i), m.files[i].bytes);
      RestIs(r);
      if content.Err? {
        PayloadsStop(w, x, limits, m, encoded, s, i + 1, |m.files|);
        return Err(content.error);
      }
      var file := StageFile(w, limits, i, m.files[i], content.value);
      if file.Err? {
        PayloadsStop(w, x, limits, m, encoded, s, i + 1, |m.files|);
        return Err(file.error);
      }
      PendingNext(m, encoded, i);
      files, contents := files + [file.value], contents + [content.value];
    }
    return Ok((files, contents));
  }

  lemma StartPayloads(w: World, x: Codecs, limits: Limits, m: Manifest, encoded: Bytes, s: Stream)
    ensures ReceivePayloads(w, x, limits, m, encoded, s, 0) == Ok(Payloads([], [], s.data))
    ensures Pending(m, encoded, 0) == Pad(|encoded|)
  {
    hide Pad;
  }

  lemma RestIs(r: Reader)
    requires r.Valid()
    ensures r.Rest().clean == r.input.clean && r.Rest() == Stream(r.Rest().data, r.input.clean)
  {
  }

  lemma PendingNext(m: Manifest, encoded: Bytes, i: nat)
    requires i < |m.files|
    ensures Pending(m, encoded, i + 1) == Pad(m.files[i].bytes)
  {
    hide Pad;
  }

  /** Receive, one member after the other. */
  method ReceiveStream(w: World, x: Codecs, limits: Limits, s: Stream) returns (r: Result<Incoming>)
    ensures r == Receive(w, x, limits, s)
  {
    hide ReceivePayloads, ValidManifest, ValidLineage, Next, Expect, Pad, Pending;
    if !limits.Valid() {
      return Err(InvalidLimits);
    }
    var reader := new Reader(x.tar, s);
    assert reader.Rest() == s by {
      assert s.data[0..] == s.data;
    }
    var header := reader.Advance();
    match header
    case End(_) =>
      return Err(Truncated);
    case Failed =>
      return Err(BadMember);
    case At(h, _) =>
      if h.name != MANIFEST || !h.regular || h.link != "" || h.size < 1 || h.size > limits.manifestBytes {
        return Err(BadManifest);
      }
      var encoded := reader.ReadBody(h.size);
      if encoded.Err? {
        return Err(encoded.error);
      }
      var m := x.decode(encoded.value);
      if m.None? {
        return Err(BadManifest);
      }
      var valid := ValidateManifest(x, limits, m.value);
      if !valid {
        return Err(BadManifest);
      }
      ghost var rest := reader.Rest().data;
      assert ReceiveManifest(x, limits, s) == Ok((m.value, encoded.value, rest));
      r := ReceiveMembers(reader, w, x, limits, m.value, encoded.value);
      BodySplits(w, x, limits, s, m.value, encoded.value, rest);
  }

  /** Everything behind a valid manifest. */
  function ReceiveRest(w: World, x: Codecs, limits: Limits, m: Manifest, encoded: Bytes, s: Stream): Result<Incoming> {
    var payloads :- ReceivePayloads(w, x, limits, m, encoded, s, |m.files|);
    if !ValidLineage(payloads.files) then Err(BadLineage)
    else
      var behind :- ReceiveCompletion(x, m, encoded, Stream(payloads.rest, s.clean));
      if Trailer(x.tar, Stream(behind, s.clean), SEAL_BYTES) then Ok(Incoming(m.thread, payloads.files,
        payloads.contents))
      else Err(TrailingData)
  }

  lemma BodySplits(w: World, x: Codecs, limits: Limits, s: Stream, m: Manifest, encoded: Bytes, rest: Bytes)
    requires limits.Valid() && ReceiveManifest(x, limits, s) == Ok((m, encoded, rest))
    ensures Receive(w, x, limits, s) == ReceiveRest(w, x, limits, m, encoded, Stream(rest, s.clean))
  {
    hide ReceiveManifest, ReceivePayloads, ValidLineage, ReceiveCompletion, Trailer;
  }

  method ReceiveMembers(reader: Reader, w: World, x: Codecs, limits: Limits, m: Manifest,
                        encoded: Bytes) returns (r: Result<Incoming>)
    requires limits.Valid() && reader.Valid() && reader.codec == x.tar && reader.pad == Pad(|encoded|)
    modifies reader
    ensures r == ReceiveRest(w, x, limits, m, encoded, old(reader.Rest()))
  {
    hide ReceivePayloads, ValidLineage, Next, Expect, Pad, Pending;
    ghost var s := reader.Rest();
    var payloads := ReadPayloads(reader, w, x, limits, m, encoded);
    if payloads.Err? {
      return Err(payloads.error);
    }
    var lineage := ValidateLineage(payloads.value.0);
    if lineage.Err? {
      return Err(lineage.error);
    }
    var completion := ReadMember(reader, COMPLETE, SEAL_BYTES);
    if completion.Err? {
      return Err(completion.error);
    }
    if completion.value != x.seal(encoded) {
      return Err(ChecksumMismatch);
    }
    ghost var behind := reader.Rest();
    var before := reader.pos;
    var next := reader.Advance();
    if !next.End? {
      return Err(TrailingData);
    }
    // the completion record's padding and both end blocks, and then nothing
    if reader.pos - before != Pad(SEAL_BYTES) + 2 * BLOCK {
      return Err(TrailingData);
    }
    if reader.pos != |reader.input.data| || !reader.input.clean {
      return Err(TrailingData);
    }
    return Ok(Incoming(m.thread, payloads.value.0, payloads.value.1));
  }

  // ---- from one home to another ----

  lemma CarriedLineage(w: World, p: Plan, inc: Incoming)
    requires CarriedOver(w, p, inc)
    ensures SameLineage(p.files, inc.files)
  {
    hide SameHistory, ContentOf;
    forall i | 0 <= i < |p.files|
      ensures SameHistory(p.files[i], inc.files[i])
    {
      assert Carried(p.files[i], inc.files[i], inc.payload[i], i);
    }
  }

  /** A snapshot's plan meets what the round trip asks. */
  lemma SnapshotExported(w: World, x: Codecs, env: Env, thread: string, sel: Option<Selection>,
                         after: Option<Selection>,
                         now: nat -> Bytes, data: Bytes)
    requires CollisionFree(w) && ClockFormats(w) && Sound(x, w) && env.w == w
    requires InventoryOf(env.tree, env.inv) && CleanTree(env.tree) && Resolve(env, thread, sel, after).Ok?
    requires Export(w, x, env.limits, Resolve(env, thread, sel, after).value, now) == Ok(data)
    ensures Exported(w, x, env, Resolve(env, thread, sel, after).value, now, data)
  {
    hide CollisionFree, ClockFormats, Sound, InventoryOf, CleanTree, Resolve, Wire.Export, CompletePlan, NamesRollout;
    ResolveFacts(env, thread, sel, after);
    PlanNames(env, thread, sel, after);
  }

  /** A whole transfer: what is inspected at the source when the snapshot is taken is what inspection finds at the
      destination after the received stream has been published, whatever the destination held and however the source
      went on in between. */
  lemma TransferPreserves(w: World, x: Codecs, env: Env, thread: string, sel: Option<Selection>,
                          after: Option<Selection>, p: Plan,
                          now: nat -> Bytes, data: Bytes, inc: Incoming, t: Target, stage: Stage, t1: Target,
                          row: Option<Selection>)
    requires CollisionFree(w) && ClockFormats(w) && Sound(x, w) && env.w == w
    requires InventoryOf(env.tree, env.inv) && CleanTree(env.tree) && Resolve(env, thread, sel, after) == Ok(p)
    requires Export(w, x, env.limits, p, now) == Ok(data) && Receive(w, x, env.limits, Stream(data, true)) == Ok(inc)
    requires t.w == w && t.limits == env.limits && Accepted(t, inc) && StageFor(w, inc, Check(t, inc).value, stage)
    requires t1.tree == Apply(t.tree, StepsOf(w, inc, Check(t, inc).value, stage))
    requires InventoryOf(t1.tree, t1.inv) && Again(t, t1) && inc.files != [] && ConsistentRow(t1, inc, row)
    ensures var found := Resolve(Look(t1), p.thread, row, row);
            found.Ok? && found.value.thread == p.thread && SameLineage(p.files, found.value.files)
  {
    hide *;
    SnapshotExported(w, x, env, thread, sel, after, now, data);
    ExportRoundTrips(w, x, env, p, now, data);
    CarriedLineage(w, p, inc);
    CarriedThread(w, p, inc);
    PublishedResolves(t, inc, stage, t1, row);
    SameLineageTransitive(p.files, inc.files, Resolve(Look(t1), p.thread, row, row).value.files);
  }

  lemma CarriedThread(w: World, p: Plan, inc: Incoming)
    requires CarriedOver(w, p, inc)
    ensures inc.thread == p.thread
  {
    hide Carried, ContentOf;
  }
}
