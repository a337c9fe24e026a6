// The set of accepted streams: internal/session/stream.go.

module Framing {
  import opened Model
  import opened Format
  import opened Rollout
  import opened Inspect
  import opened Lineage
  import opened Conflicts
  import opened Slots
  import opened Tar
  import opened Wire

  // ---- no accepted stream begins another ----

  lemma ManifestLocal(x: Codecs, limits: Limits, s: Stream, more: Bytes)
    requires Faithful(x.tar) && ReceiveManifest(x, limits, s).Ok?
    ensures var (m, encoded, rest) := ReceiveManifest(x, limits, s).value;
            ReceiveManifest(x, limits, s.(data := s.data + more)) == Ok((m, encoded, rest + more))
  {
    hide Faithful, Next, ValidManifest;
    NextLocal(x.tar, s, 0, more);
    var rest, size := Next(x.tar, s, 0).rest, Next(x.tar, s, 0).header.size;
    assert (rest + more)[..size] == rest[..size];
    assert (rest + more)[size..] == rest[size..] + more;
  }

  lemma {:induction false} PayloadsLocal(w: World, x: Codecs, limits: Limits, m: Manifest, encoded: Bytes, s: Stream,
                                         more: Bytes, n: nat)
    requires Faithful(x.tar) && n <= |m.files| && ReceivePayloads(w, x, limits, m, encoded, s, n).Ok?
    ensures var r := ReceivePayloads(w, x, limits, m, encoded, s, n).value;
            ReceivePayloads(w, x, limits, m, encoded, s.(data := s.data + more), n) == Ok(r.(rest := r.rest + more))
  {
    hide Faithful, Expect, ReceiveFile, PayloadName, Pending;
    if n > 0 {
      PayloadsLocal(w, x, limits, m, encoded, s, more, n - 1);
      var before := ReceivePayloads(w, x, limits, m, encoded, s, n - 1).value;
      ExpectLocal(x.tar, Stream(before.rest, s.clean), Pending(m, encoded, n - 1), PayloadName(n - 1),
        m.files[n - 1].bytes, more);
    }
  }

  /** A receiver that has read the completion record has looked at nothing behind it. */
  lemma BodyLocal(w: World, x: Codecs, limits: Limits, s: Stream, more: Bytes)
    requires Faithful(x.tar) && ReceiveBody(w, x, limits, s).Ok?
    ensures var (inc, rest) := ReceiveBody(w, x, limits, s).value;
            ReceiveBody(w, x, limits, s.(data := s.data + more)) == Ok((inc, rest + more))
  {
    hide Faithful, Expect, ReceivePayloads, ReceiveManifest, ValidLineage, Pending;
    ManifestLocal(x, limits, s, more);
    var (m, encoded, rest) := ReceiveManifest(x, limits, s).value;
    PayloadsLocal(w, x, limits, m, encoded, Stream(rest, s.clean), more, |m.files|);
    var payloads := ReceivePayloads(w, x, limits, m, encoded, Stream(rest, s.clean), |m.files|).value;
    ExpectLocal(x.tar, Stream(payloads.rest, s.clean), Pending(m, encoded, |m.files|), COMPLETE, SEAL_BYTES, more);
  }

  lemma {:induction false} PayloadsSameRest(w: World, v: World, x: Codecs, l: Limits, k: Limits, m: Manifest,
                                            encoded: Bytes,
                                            s: Stream, n: nat)
    requires n <= |m.files|
    requires ReceivePayloads(w, x, l, m, encoded, s, n).Ok? && ReceivePayloads(v, x, k, m, encoded, s, n).Ok?
    ensures ReceivePayloads(w, x, l, m, encoded, s, n).value.rest == ReceivePayloads(v, x, k, m, encoded, s,
            n).value.rest
  {
    hide Expect, ReceiveFile, PayloadName, Pending;
    if n > 0 {
      PayloadsSameRest(w, v, x, l, k, m, encoded, s, n - 1);
    }
  }

  /** Receivers with different limits that both reach the trailer reach it at the same place. */
  lemma BodySameRest(w: World, v: World, x: Codecs, l: Limits, k: Limits, s: Stream)
    requires ReceiveBody(w, x, l, s).Ok? && ReceiveBody(v, x, k, s).Ok?
    ensures ReceiveBody(w, x, l, s).value.1 == ReceiveBody(v, x, k, s).value.1
  {
    hide Expect, ReceivePayloads, ValidLineage, Pending, Next, ValidManifest;
    var (m, encoded, rest) := ReceiveManifest(x, l, s).value;
    assert ReceiveManifest(x, k, s).value == (m, encoded, rest);
    PayloadsSameRest(w, v, x, l, k, m, encoded, Stream(rest, s.clean), |m.files|);
  }

  /** Fail-closed framing: no accepted stream is a proper prefix of an accepted stream, whatever limits the two
      receivers use. So nothing shorter and nothing longer than an accepted stream is accepted. */
  lemma PrefixFree(w: World, v: World, x: Codecs, l: Limits, k: Limits, s: Stream, t: Stream)
    requires Faithful(x.tar) && Receive(w, x, l, s).Ok? && Receive(v, x, k, t).Ok? && s.data <= t.data
    ensures s.data == t.data
  {
    hide Faithful, ReceiveBody, Next;
    var more := t.data[|s.data|..];
    assert t.data == s.data + more;
    assert s.clean && t.clean;
    assert s.(data := s.data + more) == t;
    BodyLocal(w, x, l, s, more);
    BodySameRest(w, v, x, l, k, t);
    var rest := ReceiveBody(w, x, l, s).value.1;
    assert |rest| == |rest + more|;
  }

  // ---- what acceptance establishes ----

  /** A file as its manifest entry announced it, with its payload. */
  predicate Announced(w: World, entry: WireFile, i: nat, f: File, content: Bytes) {
    f.path == entry.path && f.thread == entry.thread && f.rollout == entry.rollout &&
      f.bytes == entry.bytes == |content| &&
    f.sha == entry.sha == w.hash(content) && f.prefix == entry.prefix && f.source == PayloadSlot(i) &&
    f.modified == Microseconds(entry.modified.instant)
  }

  lemma FileAnnounced(w: World, limits: Limits, i: nat, entry: WireFile, content: Bytes)
    requires ReceiveFile(w, limits, i, entry, content).Ok? && |content| == entry.bytes
    ensures var f := ReceiveFile(w, limits, i, entry, content).value;
            Announced(w, entry, i, f, content) && Describes(w, limits, f, content) &&
              PublicationPath(w, f) == Ok(f.path)
  {
    hide Summarize, PublicationPath, PayloadSlot;
    PayloadPlain(i);
  }

  lemma PayloadPlain(i: nat)
    ensures !HasSuffix(PayloadSlot(i), ".zst")
  {
    hide PayloadSlot;
    PayloadShape(i);
    NotCompressed(PayloadSlot(i));
  }

  lemma {:induction false} PayloadsAnnounced(w: World, x: Codecs, limits: Limits, m: Manifest, encoded: Bytes,
                                             s: Stream, n: nat)
    requires n <= |m.files| && ReceivePayloads(w, x, limits, m, encoded, s, n).Ok?
    ensures var r := ReceivePayloads(w, x, limits, m, encoded, s, n).value;
            |r.files| == |r.contents| == n &&
            forall i | 0 <= i < n ::
              Announced(w, m.files[i], i, r.files[i], r.contents[i]) &&
                Describes(w, limits, r.files[i], r.contents[i]) &&
              PublicationPath(w, r.files[i]) == Ok(r.files[i].path)
  {
    hide Next, ReceiveFile, PayloadName, Pending, Announced, Describes, PublicationPath;
    if n > 0 {
      PayloadsAnnounced(w, x, limits, m, encoded, s, n - 1);
      var before := ReceivePayloads(w, x, limits, m, encoded, s, n - 1).value;
      var (content, rest) :=
        Expect(x.tar, Stream(before.rest, s.clean), Pending(m, encoded, n - 1), PayloadName(n - 1),
          m.files[n - 1].bytes).value;
      FileAnnounced(w, limits, n - 1, m.files[n - 1], content);
    }
  }

  /** Acceptance means: every payload has the size and digest its manifest entry names, the completion record is that
      of the manifest bytes, and it stands right before the trailer. */
  lemma AcceptedIntegrity(w: World, x: Codecs, limits: Limits, s: Stream)
    requires Receive(w, x, limits, s).Ok?
    ensures ReceiveManifest(x, limits, s).Ok? && s.clean
    ensures var (m, encoded, _) := ReceiveManifest(x, limits, s).value;
            var inc := Receive(w, x, limits, s).value;
            ValidManifest(x, limits, m) && x.decode(encoded) == Some(m) && inc.thread == m.thread &&
            |inc.files| == |inc.payload| == |m.files| &&
            (forall i | 0 <= i < |m.files| :: Announced(w, m.files[i], i, inc.files[i], inc.payload[i])) &&
            HasSeal(s.data, x.seal(encoded))
  {
    hide ReceivePayloads, ReceiveCompletion, Announced, Describes, PublicationPath, ValidManifest, Next, ValidLineage,
         HasSeal, Tail;
    var (m, encoded, rest) := ReceiveManifest(x, limits, s).value;
    var payloads := ReceivePayloads(w, x, limits, m, encoded, Stream(rest, s.clean), |m.files|).value;
    PayloadsAnnounced(w, x, limits, m, encoded, Stream(rest, s.clean), |m.files|);
    ManifestRest(x, limits, s);
    PayloadsRest(w, x, limits, m, encoded, Stream(rest, s.clean), |m.files|);
    CompletionSeal(x, m, encoded, Stream(payloads.rest, s.clean));
    SealEnds(s.data, rest, payloads.rest, x.seal(encoded),
             ReceiveCompletion(x, m, encoded, Stream(payloads.rest, s.clean)).value);
  }

  /** The completion record right before the trailer. */
  predicate HasSeal(d: Bytes, seal: Bytes) {
    var n := |d| - (Pad(SEAL_BYTES) + 2 * BLOCK);
    |seal| <= n && d[n - |seal|..n] == seal
  }

  predicate Tail(d: Bytes, t: Bytes) {
    |t| <= |d| && d[|d| - |t|..] == t
  }

  lemma ManifestRest(x: Codecs, limits: Limits, s: Stream)
    requires ReceiveManifest(x, limits, s).Ok?
    ensures Tail(s.data, ReceiveManifest(x, limits, s).value.2)
  {
    hide ValidManifest, Next;
    AtWithin(x.tar, s, 0);
  }

  lemma TailOfTail(d: Bytes, t: Bytes, u: Bytes)
    requires Tail(d, t) && Tail(t, u)
    ensures Tail(d, u)
  {
  }

  lemma ExpectRest(c: Codec, s: Stream, pad: nat, name: string, size: nat)
    requires Expect(c, s, pad, name, size).Ok?
    ensures var (body, rest) := Expect(c, s, pad, name, size).value; Tail(s.data, body + rest) && Tail(s.data, rest)
  {
    hide Next;
    AtWithin(c, s, pad);
    var behind := Next(c, s, pad).rest;
    assert behind == behind[..size] + behind[size..];
    assert Tail(behind, behind[size..]);
    TailOfTail(s.data, behind, behind[size..]);
  }

  lemma {:induction false} PayloadsRest(w: World, x: Codecs, limits: Limits, m: Manifest, encoded: Bytes, s: Stream,
                                        n: nat)
    requires n <= |m.files| && ReceivePayloads(w, x, limits, m, encoded, s, n).Ok?
    ensures Tail(s.data, ReceivePayloads(w, x, limits, m, encoded, s, n).value.rest)
  {
    hide Expect, ReceiveFile, PayloadName, Pending, Tail;
    if n > 0 {
      PayloadsRest(w, x, limits, m, encoded, s, n - 1);
      var before := ReceivePayloads(w, x, limits, m, encoded, s, n - 1).value;
      ExpectRest(x.tar, Stream(before.rest, s.clean), Pending(m, encoded, n - 1), PayloadName(n - 1),
        m.files[n - 1].bytes);
      TailOfTail(s.data, before.rest, ReceivePayloads(w, x, limits, m, encoded, s, n).value.rest);
    } else {
      WholeTail(s.data);
    }
  }

  lemma WholeTail(d: Bytes)
    ensures Tail(d, d)
  {
  }

  lemma CompletionSeal(x: Codecs, m: Manifest, encoded: Bytes, s: Stream)
    requires ReceiveCompletion(x, m, encoded, s).Ok?
    ensures Tail(s.data, x.seal(encoded) + ReceiveCompletion(x, m, encoded, s).value)
  {
    hide Expect, Pending, Tail;
    ExpectRest(x.tar, s, Pending(m, encoded, |m.files|), COMPLETE, SEAL_BYTES);
  }

  lemma SealEnds(d: Bytes, rest: Bytes, behind: Bytes, seal: Bytes, trailer: Bytes)
    requires Tail(d, rest) && Tail(rest, behind)
    requires |trailer| == Pad(SEAL_BYTES) + 2 * BLOCK && Tail(behind, seal + trailer)
    ensures HasSeal(d, seal)
  {
    TailOfTail(d, rest, behind);
    TailOfTail(d, behind, seal + trailer);
    var n := |d| - |trailer|;
    assert d[|d| - |seal + trailer|..][..|seal|] == seal;
  }

  // ---- acceptance makes a publishable transfer ----

  lemma EntryValid(x: Codecs, w: World, limits: Limits, m: Manifest, i: nat, f: File, content: Bytes)
    requires ClockFormats(w) && ValidManifest(x, limits, m) && i < |m.files|
    requires Announced(w, m.files[i], i, f, content) && Describes(w, limits, f, content) &&
             PublicationPath(w, f) == Ok(f.path)
    ensures ValidFile(w, limits, f, content) && f.prefix == (i < |m.files| - 1)
    ensures i == |m.files| - 1 ==> f.thread == m.thread
  {
    hide Describes, PublicationPath, ParseName, ManagedPath, PrerequisitePath, ValidRelative, Rollouts, PayloadSlot;
    assert ValidEntry(x, limits, m, i, Rollouts(m, i));
    PublicationPathFacts(w, f);
    PayloadPlain(i);
  }

  lemma ManifestDistinct(x: Codecs, limits: Limits, m: Manifest, i: nat, j: nat)
    requires ValidManifest(x, limits, m) && i < j < |m.files|
    ensures m.files[i].rollout != m.files[j].rollout
  {
    hide ManagedPath, ValidRelative;
    assert ValidEntry(x, limits, m, j, Rollouts(m, j));
    assert m.files[i].rollout in Rollouts(m, j);
  }

  /** Whatever Receive returns is a complete validated lineage: all that publication relies on. */
  lemma ReceivedIsValid(w: World, x: Codecs, limits: Limits, s: Stream)
    requires ClockFormats(w) && Receive(w, x, limits, s).Ok?
    ensures ValidIncoming(w, limits, Receive(w, x, limits, s).value)
  {
    hide ReceivePayloads, ReceiveCompletion, Announced, Describes, PublicationPath, ValidManifest, Next, ValidFile,
         Trailer, ReceiveManifest, HasSeal, ParseName, Inherits;
    AcceptedIntegrity(w, x, limits, s);
    var (m, encoded, rest) := ReceiveManifest(x, limits, s).value;
    PayloadsAnnounced(w, x, limits, m, encoded, Stream(rest, s.clean), |m.files|);
    var inc := Receive(w, x, limits, s).value;
    ManifestCounts(x, limits, m);
    forall i | 0 <= i < |inc.files|
      ensures ValidFile(w, limits, inc.files[i], inc.payload[i])
      ensures inc.files[i].prefix == (i < |m.files| - 1)
      ensures i == |m.files| - 1 ==> inc.files[i].thread == m.thread
    {
      EntryValid(x, w, limits, m, i, inc.files[i], inc.payload[i]);
    }
    forall i, j | 0 <= i < j < |inc.files|
      ensures inc.files[i].rollout != inc.files[j].rollout
    {
      ManifestDistinct(x, limits, m, i, j);
      AnnouncedRollout(w, m, i, inc.files[i], inc.payload[i]);
      AnnouncedRollout(w, m, j, inc.files[j], inc.payload[j]);
    }
    LineageJoined(inc.files);
  }

  lemma AnnouncedRollout(w: World, m: Manifest, i: nat, f: File, content: Bytes)
    requires i < |m.files| && Announced(w, m.files[i], i, f, content)
    ensures f.rollout == m.files[i].rollout
  {
  }

  lemma ManifestCounts(x: Codecs, limits: Limits, m: Manifest)
    requires ValidManifest(x, limits, m)
    ensures 1 <= |m.files| <= limits.files && Canonical(m.thread)
  {
    hide ValidEntry;
  }

  lemma LineageJoined(files: seq<File>)
    requires ValidLineage(files) && forall i | 0 <= i < |files| - 1 :: files[i].prefix
    ensures Joined(files)
  {
    forall i | 0 <= i < |files| - 1
      ensures Meets(files[i], files[i + 1])
    {
      assert Inherits(files[i + 1 - 1], files[i + 1]);
    }
  }
}
