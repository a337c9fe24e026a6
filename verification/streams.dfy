// The accepted streams, byte by byte: Receive of internal/session/stream.go.

module Streams {
  import opened Model
  import opened Format
  import opened Rollout
  import opened Inspect
  import opened Lineage
  import opened Conflicts
  import opened Slots
  import opened Tar
  import opened Wire
  import opened Framing

  // ---- the grammar ----

  /** A member as it stands in a stream: the padding of the member before it, its header blocks, its data. */
  datatype Part = Part(gap: Bytes, head: Bytes, data: Bytes)

  function Flat(parts: seq<Part>): Bytes {
    if parts == [] then []
    else
      var last := parts[|parts| - 1];
      Flat(parts[..|parts| - 1]) + (last.gap + last.head + last.data)
  }

  /** A regular file of this name and no link, with padding of any content before it. */
  predicate IsMember(c: Codec, p: Part, pad: nat, name: string) {
    |p.gap| == pad && c.read(p.head) == Member(Header(name, true, "", |p.data|), |p.head|)
  }

  /** The manifest of version 1 for a conversation: files with distinct rollouts, all but the last prefixes, the last
      one of the conversation's thread, each within the limits and with a date that can be carried. */
  predicate GoodManifest(x: Codecs, limits: Limits, m: Manifest) {
    m.version == 1 && ParseID(m.thread) == Some(m.thread) && 1 <= |m.files| <= limits.files &&
    (forall i, j | 0 <= i < j < |m.files| :: m.files[i].rollout != m.files[j].rollout) &&
    m.files[|m.files| - 1].thread == m.thread &&
    (forall i | 0 <= i < |m.files| :: m.files[i].prefix <==> i < |m.files| - 1) &&
    forall f | f in m.files :: GoodEntry(x, limits, f)
  }

  predicate GoodEntry(x: Codecs, limits: Limits, f: WireFile) {
    ParseID(f.thread) == Some(f.thread) && ParseID(f.rollout) == Some(f.rollout) && x.digest(f.sha) &&
    1 <= f.bytes <= limits.fileBytes && ValidRelative(f.path) && HasSuffix(f.path, ".jsonl") &&
    (HasPrefix(f.path, "sessions/") || HasPrefix(f.path, "archived_sessions/")) &&
    0 <= f.modified.instant + f.modified.offset * 60_000_000_000 < 9_214_646_400_000_000_000
  }

  /** The payload is a whole rollout as its entry announces it, at its own publication path. */
  ghost predicate GoodFile(w: World, limits: Limits, entry: WireFile, i: nat, f: File, content: Bytes) {
    Announced(w, entry, i, f, content) && Describes(w, limits, f, content) && PublicationPath(w, f) == Ok(entry.path) &&
    f.stored == Node(i, content, Microseconds(entry.modified.instant))
  }

  // ---- one member ----

  lemma HeadCut(c: Codec, d: Bytes)
    requires Faithful(c) && c.read(d).Member?
    ensures c.read(d).length <= |d|
    ensures c.read(d[..c.read(d).length]) == c.read(d)
  {
    hide ZeroBlock, Writable;
    var e := d[..c.read(d).length];
    assert e <= e;
  }

  lemma NextExactly(c: Codec, s: Stream, pad: nat, h: Header, rest: Bytes)
    requires Faithful(c)
    ensures Next(c, s, pad) == At(h, rest) <==>
            exists gap, head :: |gap| == pad && c.read(head) == Member(h, |head|) && s.data == gap + head + rest
  {
    hide Faithful, ZeroBlock;
    if Next(c, s, pad) == At(h, rest) {
      var d := s.data[pad..];
      HeadCut(c, d);
      var n := c.read(d).length;
      assert s.data == s.data[..pad] + d[..n] + rest;
    }
    forall gap: Bytes, head: Bytes | |gap| == pad && c.read(head) == Member(h, |head|) && s.data == gap + head + rest
      ensures Next(c, s, pad) == At(h, rest)
    {
      HeaderLocal(c, head, rest);
      assert s.data[pad..] == head + rest && (head + rest)[|head|..] == rest;
    }
  }

  lemma ExpectRead(c: Codec, s: Stream, pad: nat, name: string, size: nat, data: Bytes, rest: Bytes)
    ensures Expect(c, s, pad, name, size) == Ok((data, rest)) <==>
            |data| == size && Next(c, s, pad) == At(Header(name, true, "", size), data + rest)
  {
    hide Next;
    if |data| == size {
      assert (data + rest)[..size] == data && (data + rest)[size..] == rest;
    }
    if Expect(c, s, pad, name, size) == Ok((data, rest)) {
      assert Next(c, s, pad).rest == data + rest;
    }
  }

  /** A member is expected exactly where it stands. */
  lemma ExpectExactly(c: Codec, s: Stream, pad: nat, name: string, size: nat, data: Bytes, rest: Bytes)
    requires Faithful(c)
    ensures Expect(c, s, pad, name, size) == Ok((data, rest)) <==>
            |data| == size && exists p: Part :: p.data == data && IsMember(c, p, pad, name) &&
                                                s.data == p.gap + p.head + p.data + rest
  {
    hide Faithful, Next, Expect;
    ExpectRead(c, s, pad, name, size, data, rest);
    var h := Header(name, true, "", size);
    NextExactly(c, s, pad, h, data + rest);
    if |data| == size {
      if gap: Bytes, head: Bytes :| |gap| == pad && c.read(head) == Member(h, |head|) &&
                                    s.data == gap + head + (data + rest) {
        var p := Part(gap, head, data);
        assert s.data == p.gap + p.head + p.data + rest;
      }
      forall p: Part | p.data == data && s.data == p.gap + p.head + p.data + rest
        ensures s.data == p.gap + p.head + (data + rest)
      {
      }
    }
  }

  // ---- manifest and files ----

  lemma EntryExactly(x: Codecs, limits: Limits, m: Manifest, i: nat)
    requires i < |m.files|
    ensures ValidEntry(x, limits, m, i, Rollouts(m, i)) <==>
            GoodEntry(x, limits, m.files[i]) && (forall j | 0 <= j < i :: m.files[j].rollout != m.files[i].rollout) &&
            (m.files[i].prefix <==> i < |m.files| - 1) && (!m.files[i].prefix ==> m.files[i].thread == m.thread)
  {
    hide ParseID, ValidRelative, HasPrefix, HasSuffix;
  }

  lemma ManifestExactly(x: Codecs, limits: Limits, m: Manifest)
    ensures ValidManifest(x, limits, m) <==> GoodManifest(x, limits, m)
  {
    hide ValidEntry, GoodEntry, ParseID;
    forall i | 0 <= i < |m.files|
      ensures ValidEntry(x, limits, m, i, Rollouts(m, i)) <==>
              GoodEntry(x, limits, m.files[i]) && (forall j | 0 <= j < i :: m.files[j].rollout != m.files[i].rollout) &&
              (m.files[i].prefix <==> i < |m.files| - 1) && (!m.files[i].prefix ==> m.files[i].thread == m.thread)
    {
      EntryExactly(x, limits, m, i);
    }
  }

  lemma FileExactly(w: World, limits: Limits, i: nat, entry: WireFile, content: Bytes, f: File)
    requires |content| == entry.bytes
    ensures ReceiveFile(w, limits, i, entry, content) == Ok(f) <==> GoodFile(w, limits, entry, i, f, content)
  {
    hide Summarize, PublicationPath, PayloadSlot, Microseconds;
    PayloadPlain(i);
    NotCompressedSlot(i);
    if ReceiveFile(w, limits, i, entry, content).Ok? {
      FileAnnounced(w, limits, i, entry, content);
    }
  }

  /** The time a received file gets is the announced one in whole microseconds: the next one from just before 1970 on,
      and before that one later still. */
  lemma TimeExactly(t: int)
    ensures Microseconds(t) % 1000 == 0
    ensures if t > -1000 then t <= Microseconds(t) < t + 1000 else t + 1000 <= Microseconds(t) + 1 < t + 2000
  {
  }

  lemma NotCompressedSlot(i: nat)
    ensures TrimSuffix(PayloadSlot(i), ".zst") == PayloadSlot(i)
  {
    hide PayloadSlot;
    PayloadPlain(i);
  }

  // ---- the payloads ----

  /** The i-th payload stands behind the one before it, or the manifest, and is what its entry says. */
  ghost predicate PayloadAt(w: World, x: Codecs, limits: Limits, m: Manifest, encoded: Bytes, parts: seq<Part>,
                            files: seq<File>, contents: seq<Bytes>, i: nat)
    requires i < |parts| == |files| == |contents| && i < |m.files|
  {
    IsMember(x.tar, parts[i], if i == 0 then Pad(|encoded|) else Pad(|parts[i - 1].data|),
             "files/" + Padded(i) + ".jsonl") &&
    contents[i] == parts[i].data && |contents[i]| == m.files[i].bytes &&
    GoodFile(w, limits, m.files[i], i, files[i], contents[i])
  }

  /** The first payloads, one after the other. */
  ghost predicate ArePayloads(w: World, x: Codecs, limits: Limits, m: Manifest, encoded: Bytes, parts: seq<Part>,
                              files: seq<File>, contents: seq<Bytes>) {
    |parts| == |files| == |contents| <= |m.files| &&
    forall i | 0 <= i < |parts| :: PayloadAt(w, x, limits, m, encoded, parts, files, contents, i)
  }

  lemma SamePayload(w: World, x: Codecs, limits: Limits, m: Manifest, encoded: Bytes, parts: seq<Part>,
                    files: seq<File>, contents: seq<Bytes>, n: nat, i: nat)
    requires i < n <= |parts| == |files| == |contents| <= |m.files|
    ensures PayloadAt(w, x, limits, m, encoded, parts[..n], files[..n], contents[..n], i) <==>
            PayloadAt(w, x, limits, m, encoded, parts, files, contents, i)
  {
    hide GoodFile, IsMember, PayloadName;
  }

  lemma OnePayload(w: World, x: Codecs, limits: Limits, m: Manifest, encoded: Bytes, parts: seq<Part>,
                   files: seq<File>, contents: seq<Bytes>)
    requires 0 < |parts| == |files| == |contents| <= |m.files|
    ensures var n := |parts| - 1;
            ArePayloads(w, x, limits, m, encoded, parts, files, contents) <==>
              ArePayloads(w, x, limits, m, encoded, parts[..n], files[..n], contents[..n]) &&
              PayloadAt(w, x, limits, m, encoded, parts, files, contents, n)
  {
    hide PayloadAt;
    var n := |parts| - 1;
    forall i | 0 <= i < n
      ensures PayloadAt(w, x, limits, m, encoded, parts[..n], files[..n], contents[..n], i) <==>
              PayloadAt(w, x, limits, m, encoded, parts, files, contents, i)
    {
      SamePayload(w, x, limits, m, encoded, parts, files, contents, n, i);
    }
  }

  /** The padding before the n-th payload is that of what stands before it. */
  lemma GapBefore(w: World, x: Codecs, limits: Limits, m: Manifest, encoded: Bytes, parts: seq<Part>,
                  files: seq<File>, contents: seq<Bytes>, n: nat)
    requires n < |m.files| && n <= |parts| && ArePayloads(w, x, limits, m, encoded, parts, files, contents)
    ensures Pending(m, encoded, n) == if n == 0 then Pad(|encoded|) else Pad(|parts[n - 1].data|)
  {
    hide GoodFile, IsMember, PayloadName;
    if n > 0 {
      assert PayloadAt(w, x, limits, m, encoded, parts, files, contents, n - 1);
    }
  }

  lemma {:induction false} PayloadsExactly(w: World, x: Codecs, limits: Limits, m: Manifest, encoded: Bytes, s: Stream,
                                           n: nat, p: Payloads)
    requires Faithful(x.tar) && n <= |m.files|
    ensures ReceivePayloads(w, x, limits, m, encoded, s, n) == Ok(p) <==>
            exists parts: seq<Part> :: |parts| == n && s.data == Flat(parts) + p.rest &&
              ArePayloads(w, x, limits, m, encoded, parts, p.files, p.contents)
  {
    hide Faithful, Expect, ReceiveFile, PayloadName, Pending, IsMember, GoodFile, ArePayloads;
    if ReceivePayloads(w, x, limits, m, encoded, s, n) == Ok(p) {
      var _ := PayloadsShape(w, x, limits, m, encoded, s, n, p);
    }
    forall parts: seq<Part> | |parts| == n && s.data == Flat(parts) + p.rest &&
                              ArePayloads(w, x, limits, m, encoded, parts, p.files, p.contents)
      ensures ReceivePayloads(w, x, limits, m, encoded, s, n) == Ok(p)
    {
      PayloadsTaken(w, x, limits, m, encoded, s, n, p, parts);
    }
  }

  lemma NoPayloads(w: World, x: Codecs, limits: Limits, m: Manifest, encoded: Bytes)
    ensures ArePayloads(w, x, limits, m, encoded, [], [], [])
  {
  }

  /** What a receiver has found of the n-th payload. */
  lemma PayloadStep(w: World, x: Codecs, limits: Limits, m: Manifest, encoded: Bytes, s: Stream, n: nat, p: Payloads)
    returns (before: Payloads, content: Bytes, file: File)
    requires 0 < n <= |m.files| && ReceivePayloads(w, x, limits, m, encoded, s, n) == Ok(p)
    ensures ReceivePayloads(w, x, limits, m, encoded, s, n - 1) == Ok(before)
    ensures Expect(x.tar, Stream(before.rest, s.clean), Pending(m, encoded, n - 1), PayloadName(n - 1),
                   m.files[n - 1].bytes) == Ok((content, p.rest))
    ensures ReceiveFile(w, limits, n - 1, m.files[n - 1], content) == Ok(file)
    ensures p == Payloads(before.files + [file], before.contents + [content], p.rest)
  {
    hide Expect, ReceiveFile, PayloadName, Pending;
    before := ReceivePayloads(w, x, limits, m, encoded, s, n - 1).value;
    var r := Expect(x.tar, Stream(before.rest, s.clean), Pending(m, encoded, n - 1), PayloadName(n - 1),
                    m.files[n - 1].bytes).value;
    content := r.0;
    file := ReceiveFile(w, limits, n - 1, m.files[n - 1], content).value;
  }

  lemma {:induction false} PayloadsShape(w: World, x: Codecs, limits: Limits, m: Manifest, encoded: Bytes, s: Stream,
                                         n: nat, p: Payloads) returns (parts: seq<Part>)
    requires Faithful(x.tar) && n <= |m.files| && ReceivePayloads(w, x, limits, m, encoded, s, n) == Ok(p)
    ensures |parts| == n && s.data == Flat(parts) + p.rest
    ensures ArePayloads(w, x, limits, m, encoded, parts, p.files, p.contents)
  {
    hide Faithful, Expect, ReceiveFile, PayloadName, Pending, IsMember, GoodFile, ArePayloads;
    if n == 0 {
      parts := [];
      NoPayloads(w, x, limits, m, encoded);
      assert s.data == [] + p.rest;
    } else {
      hide ReceivePayloads, Flat;
      var before, content, file := PayloadStep(w, x, limits, m, encoded, s, n, p);
      var init := PayloadsShape(w, x, limits, m, encoded, s, n - 1, before);
      var behind, entry := Stream(before.rest, s.clean), m.files[n - 1];
      ExpectExactly(x.tar, behind, Pending(m, encoded, n - 1), PayloadName(n - 1), entry.bytes, content, p.rest);
      var last: Part :| last.data == content && behind.data == last.gap + last.head + last.data + p.rest &&
                        IsMember(x.tar, last, Pending(m, encoded, n - 1), PayloadName(n - 1));
      parts := init + [last];
      LastFlat(init, last, p.rest);
      FileExactly(w, limits, n - 1, entry, content, file);
      ArePayloadsSizes(w, x, limits, m, encoded, init, before.files, before.contents);
      GapBefore(w, x, limits, m, encoded, init, before.files, before.contents, n - 1);
      MorePayloads(w, x, limits, m, encoded, init, last, before, file);
    }
  }

  lemma NamedSo(i: nat)
    ensures PayloadName(i) == "files/" + Padded(i) + ".jsonl"
  {
    hide Padded;
  }

  lemma MorePayloads(w: World, x: Codecs, limits: Limits, m: Manifest, encoded: Bytes, init: seq<Part>, last: Part,
                     before: Payloads, file: File)
    requires ArePayloads(w, x, limits, m, encoded, init, before.files, before.contents) && |init| < |m.files|
    requires IsMember(x.tar, last, if init == [] then Pad(|encoded|) else Pad(|init[|init| - 1].data|),
                      PayloadName(|init|))
    requires |last.data| == m.files[|init|].bytes && GoodFile(w, limits, m.files[|init|], |init|, file, last.data)
    ensures ArePayloads(w, x, limits, m, encoded, init + [last], before.files + [file], before.contents + [last.data])
  {
    hide IsMember, PayloadName, GoodFile;
    var parts, files, contents := init + [last], before.files + [file], before.contents + [last.data];
    assert |init| == |before.files| == |before.contents|;
    assert parts[..|init|] == init && files[..|init|] == before.files && contents[..|init|] == before.contents;
    NamedSo(|init|);
    assert PayloadAt(w, x, limits, m, encoded, parts, files, contents, |init|);
    hide PayloadAt;
    OnePayload(w, x, limits, m, encoded, parts, files, contents);
  }

  lemma ArePayloadsSizes(w: World, x: Codecs, limits: Limits, m: Manifest, encoded: Bytes, parts: seq<Part>,
                         files: seq<File>, contents: seq<Bytes>)
    requires ArePayloads(w, x, limits, m, encoded, parts, files, contents)
    ensures |parts| == |files| == |contents|
  {
    hide GoodFile, IsMember;
  }

  lemma LastFlat(init: seq<Part>, last: Part, rest: Bytes)
    ensures Flat(init + [last]) == Flat(init) + (last.gap + last.head + last.data)
    ensures Flat(init) + (last.gap + last.head + last.data + rest) == Flat(init + [last]) + rest
  {
    assert (init + [last])[..|init|] == init;
  }

  lemma {:induction false} PayloadsTaken(w: World, x: Codecs, limits: Limits, m: Manifest, encoded: Bytes, s: Stream,
                                         n: nat, p: Payloads, parts: seq<Part>)
    requires Faithful(x.tar) && n <= |m.files| && |parts| == n && s.data == Flat(parts) + p.rest
    requires ArePayloads(w, x, limits, m, encoded, parts, p.files, p.contents)
    ensures ReceivePayloads(w, x, limits, m, encoded, s, n) == Ok(p)
  {
    hide Faithful, Expect, ReceiveFile, PayloadName, Pending, IsMember, GoodFile, ArePayloads;
    ArePayloadsSizes(w, x, limits, m, encoded, parts, p.files, p.contents);
    if n == 0 {
      assert Flat(parts) + p.rest == p.rest;
    } else {
      hide ReceivePayloads, Flat;
      var init, last := parts[..n - 1], parts[n - 1];
      assert parts == init + [last];
      OnePayload(w, x, limits, m, encoded, parts, p.files, p.contents);
      NamedSo(n - 1);
      LastFlat(init, last, p.rest);
      var before := Payloads(p.files[..n - 1], p.contents[..n - 1], last.gap + last.head + last.data + p.rest);
      PayloadsTaken(w, x, limits, m, encoded, s, n - 1, before, init);
      GapBefore(w, x, limits, m, encoded, init, before.files, before.contents, n - 1);
      assert p.files == before.files + [p.files[n - 1]] && p.contents == before.contents + [last.data];
      OneTaken(w, x, limits, m, encoded, s, n, before, last, p.files[n - 1], p.rest);
    }
  }

  lemma OneTaken(w: World, x: Codecs, limits: Limits, m: Manifest, encoded: Bytes, s: Stream, n: nat,
                 before: Payloads, last: Part, file: File, rest: Bytes)
    requires Faithful(x.tar) && 0 < n <= |m.files|
    requires ReceivePayloads(w, x, limits, m, encoded, s, n - 1) == Ok(before)
    requires before.rest == last.gap + last.head + last.data + rest
    requires IsMember(x.tar, last, Pending(m, encoded, n - 1), PayloadName(n - 1))
    requires |last.data| == m.files[n - 1].bytes && GoodFile(w, limits, m.files[n - 1], n - 1, file, last.data)
    ensures ReceivePayloads(w, x, limits, m, encoded, s, n) ==
            Ok(Payloads(before.files + [file], before.contents + [last.data], rest))
  {
    hide Faithful, Expect, ReceiveFile, ReceivePayloads, PayloadName, Pending, IsMember, GoodFile;
    var entry := m.files[n - 1];
    ExpectExactly(x.tar, Stream(before.rest, s.clean), Pending(m, encoded, n - 1), PayloadName(n - 1), entry.bytes,
                  last.data, rest);
    FileExactly(w, limits, n - 1, entry, last.data, file);
    PayloadGoes(w, x, limits, m, encoded, s, n, before, last.data, file, rest);
  }

  lemma PayloadGoes(w: World, x: Codecs, limits: Limits, m: Manifest, encoded: Bytes, s: Stream, n: nat,
                    before: Payloads, content: Bytes, file: File, rest: Bytes)
    requires 0 < n <= |m.files| && ReceivePayloads(w, x, limits, m, encoded, s, n - 1) == Ok(before)
    requires Expect(x.tar, Stream(before.rest, s.clean), Pending(m, encoded, n - 1), PayloadName(n - 1),
                    m.files[n - 1].bytes) == Ok((content, rest))
    requires ReceiveFile(w, limits, n - 1, m.files[n - 1], content) == Ok(file)
    ensures ReceivePayloads(w, x, limits, m, encoded, s, n) ==
            Ok(Payloads(before.files + [file], before.contents + [content], rest))
  {
    hide Expect, ReceiveFile, PayloadName, Pending;
  }

  // ---- whole streams ----

  predicate InheritsFrom(parent: File, child: File) {
    parent.meta.mode == "paginated" && parent.lastOrdinal < MAX_U64 &&
    child.meta.base == Some(HistoryPosition(parent.rollout, parent.lastOrdinal + 1, parent.bytes))
  }

  /** Each file but the first inherits all of the one before it, a paginated one. */
  predicate InheritsAll(files: seq<File>) {
    (files != [] ==> files[0].meta.base.None?) && forall i | 0 < i < |files| :: InheritsFrom(files[i - 1], files[i])
  }

  /** A transfer: the manifest, the payloads in its order, the completion record of its bytes, and behind the record's
      padding two zero blocks and nothing else. */
  ghost predicate IsTransfer(w: World, x: Codecs, limits: Limits, d: Bytes, m: Manifest, opening: Part,
                             parts: seq<Part>, record: Part, inc: Incoming) {
    GoodManifest(x, limits, m) && x.decode(opening.data) == Some(m) && IsMember(x.tar, opening, 0, "manifest.json") &&
    1 <= |opening.data| <= limits.manifestBytes && inc.thread == m.thread && InheritsAll(inc.files) &&
    |parts| == |m.files| && ArePayloads(w, x, limits, m, opening.data, parts, inc.files, inc.payload) &&
    IsMember(x.tar, record, Pad(m.files[|m.files| - 1].bytes), "complete.sha256") &&
    record.data == x.seal(opening.data) && |record.data| == 65 &&
    EndsIn(d, Flat([opening] + parts + [record]))
  }

  /** The completion record's padding, of any content, and 1024 zero bytes. */
  predicate EndsIn(d: Bytes, members: Bytes) {
    members <= d && |d| == |members| + Pad(65) + 1024 && forall k | |d| - 1024 <= k < |d| :: d[k] == 0
  }

  lemma InheritsExactly(parent: File, child: File)
    ensures Inherits(parent, child) <==> InheritsFrom(parent, child)
  {
  }

  lemma LineageExactly(files: seq<File>)
    ensures ValidLineage(files) <==> InheritsAll(files)
  {
    hide Inherits, InheritsFrom;
    forall i | 0 < i < |files|
      ensures Inherits(files[i - 1], files[i]) <==> InheritsFrom(files[i - 1], files[i])
    {
      InheritsExactly(files[i - 1], files[i]);
    }
  }

  lemma OpeningRead(x: Codecs, limits: Limits, s: Stream, m: Manifest, encoded: Bytes, rest: Bytes)
    ensures ReceiveManifest(x, limits, s) == Ok((m, encoded, rest)) <==>
            Next(x.tar, s, 0) == At(Header("manifest.json", true, "", |encoded|), encoded + rest) &&
            1 <= |encoded| <= limits.manifestBytes && x.decode(encoded) == Some(m) && ValidManifest(x, limits, m)
  {
    hide Next, ValidManifest;
    assert (encoded + rest)[..|encoded|] == encoded && (encoded + rest)[|encoded|..] == rest;
    if ReceiveManifest(x, limits, s) == Ok((m, encoded, rest)) {
      assert Next(x.tar, s, 0).rest == encoded + rest;
    }
  }

  lemma OpeningExactly(x: Codecs, limits: Limits, s: Stream, m: Manifest, encoded: Bytes, rest: Bytes)
    requires Faithful(x.tar) && limits.Valid()
    ensures ReceiveManifest(x, limits, s) == Ok((m, encoded, rest)) <==>
            GoodManifest(x, limits, m) && x.decode(encoded) == Some(m) && 1 <= |encoded| <= limits.manifestBytes &&
            exists p: Part :: p.data == encoded && IsMember(x.tar, p, 0, "manifest.json") &&
                              s.data == p.gap + p.head + p.data + rest
  {
    hide Faithful, Next, ValidManifest, GoodManifest, ReceiveManifest;
    ManifestExactly(x, limits, m);
    OpeningRead(x, limits, s, m, encoded, rest);
    var h := Header("manifest.json", true, "", |encoded|);
    NextExactly(x.tar, s, 0, h, encoded + rest);
    if gap: Bytes, head: Bytes :| |gap| == 0 && x.tar.read(head) == Member(h, |head|) &&
                                  s.data == gap + head + (encoded + rest) {
      var p := Part(gap, head, encoded);
      assert s.data == p.gap + p.head + p.data + rest;
    }
    forall p: Part | p.data == encoded && s.data == p.gap + p.head + p.data + rest
      ensures s.data == p.gap + p.head + (encoded + rest)
    {
    }
  }

  lemma {:induction false} FlatConcat(a: seq<Part>, b: seq<Part>)
    ensures Flat(a + b) == Flat(a) + Flat(b)
  {
    if b == [] {
      assert a + b == a;
    } else {
      hide Flat;
      var init, last := b[..|b| - 1], b[|b| - 1];
      assert b == init + [last] && a + b == (a + init) + [last];
      FlatConcat(a, init);
      LastFlat(a + init, last, []);
      LastFlat(init, last, []);
    }
  }

  lemma FlatOf(opening: Part, parts: seq<Part>, record: Part)
    ensures Flat([opening] + parts + [record]) ==
            opening.gap + opening.head + opening.data + Flat(parts) + (record.gap + record.head + record.data)
  {
    LastFlat([opening] + parts, record, []);
    FlatConcat([opening], parts);
    assert [opening][..0] == [];
    assert Flat([opening]) == opening.gap + opening.head + opening.data;
  }

  lemma TrailerIs(c: Codec, clean: bool, members: Bytes, rest: Bytes)
    ensures Trailer(c, Stream(rest, clean), 65) <==> clean && EndsIn(members + rest, members)
  {
    TrailerExact(c, Stream(rest, clean), 65);
    var d := members + rest;
    if |rest| == Pad(65) + 1024 {
      assert forall k | 0 <= k < 1024 :: d[|d| - 1024 + k] == rest[Pad(65)..][k];
      if forall k | |d| - 1024 <= k < |d| :: d[k] == 0 {
        assert rest[Pad(65)..] == Zero(1024);
      }
    }
  }

  lemma SoundTar(x: Codecs, w: World)
    requires Sound(x, w)
    ensures Faithful(x.tar)
  {
    hide Faithful;
  }

  /** What a receiver has found on its way. */
  lemma Pieces(w: World, x: Codecs, limits: Limits, s: Stream, inc: Incoming)
    returns (m: Manifest, encoded: Bytes, rest: Bytes, p: Payloads, trailer: Bytes)
    requires Receive(w, x, limits, s) == Ok(inc)
    ensures limits.Valid() && ReceiveManifest(x, limits, s) == Ok((m, encoded, rest))
    ensures ReceivePayloads(w, x, limits, m, encoded, Stream(rest, s.clean), |m.files|) == Ok(p)
    ensures ValidLineage(p.files) && inc == Incoming(m.thread, p.files, p.contents)
    ensures Expect(x.tar, Stream(p.rest, s.clean), Pending(m, encoded, |m.files|), COMPLETE, SEAL_BYTES) ==
            Ok((x.seal(encoded), trailer))
    ensures Trailer(x.tar, Stream(trailer, s.clean), SEAL_BYTES)
  {
    hide ReceiveManifest, ReceivePayloads, Trailer, Pending, ValidLineage, Expect;
    var (manifest, bytes, behind) := ReceiveManifest(x, limits, s).value;
    m, encoded, rest := manifest, bytes, behind;
    p := ReceivePayloads(w, x, limits, m, encoded, Stream(rest, s.clean), |m.files|).value;
    trailer := ReceiveBody(w, x, limits, s).value.1;
    RecordIs(x, m, encoded, Stream(p.rest, s.clean), trailer);
  }

  lemma RecordIs(x: Codecs, m: Manifest, encoded: Bytes, s: Stream, trailer: Bytes)
    requires ReceiveCompletion(x, m, encoded, s) == Ok(trailer)
    ensures Expect(x.tar, s, Pending(m, encoded, |m.files|), COMPLETE, SEAL_BYTES) == Ok((x.seal(encoded), trailer))
  {
    hide Expect, Pending;
    var r := Expect(x.tar, s, Pending(m, encoded, |m.files|), COMPLETE, SEAL_BYTES).value;
    assert r == (x.seal(encoded), trailer);
  }

  lemma Received(w: World, x: Codecs, limits: Limits, s: Stream, inc: Incoming)
    returns (m: Manifest, opening: Part, parts: seq<Part>, record: Part)
    requires Faithful(x.tar) && Receive(w, x, limits, s) == Ok(inc)
    ensures limits.Valid() && s.clean && IsTransfer(w, x, limits, s.data, m, opening, parts, record, inc)
  {
    hide Faithful, Receive, ReceiveManifest, ReceivePayloads, GoodManifest, ArePayloads, Trailer, IsMember, Pending,
         ValidLineage, InheritsAll, Expect, EndsIn, Flat;
    var encoded, rest, p, trailer;
    m, encoded, rest, p, trailer := Pieces(w, x, limits, s, inc);
    OpeningExactly(x, limits, s, m, encoded, rest);
    opening :| opening.data == encoded && IsMember(x.tar, opening, 0, "manifest.json") &&
               s.data == opening.gap + opening.head + opening.data + rest;
    PayloadsExactly(w, x, limits, m, encoded, Stream(rest, s.clean), |m.files|, p);
    parts :| |parts| == |m.files| && rest == Flat(parts) + p.rest &&
             ArePayloads(w, x, limits, m, encoded, parts, p.files, p.contents);
    var tail, seal := Stream(p.rest, s.clean), x.seal(encoded);
    ExpectExactly(x.tar, tail, Pending(m, encoded, |m.files|), COMPLETE, SEAL_BYTES, seal, trailer);
    record :| record.data == seal && IsMember(x.tar, record, Pending(m, encoded, |m.files|), COMPLETE) &&
              tail.data == record.gap + record.head + record.data + trailer;
    LineageExactly(p.files);
    LastGap(x, limits, m, encoded);
    FlatOf(opening, parts, record);
    var members := Flat([opening] + parts + [record]);
    Glued(opening, Flat(parts), record, trailer, rest, p.rest, s.data, members);
    TrailerIs(x.tar, s.clean, members, trailer);
  }

  lemma Glued(opening: Part, payloads: Bytes, record: Part, trailer: Bytes, rest: Bytes, behind: Bytes, d: Bytes,
              members: Bytes)
    requires d == opening.gap + opening.head + opening.data + rest && rest == payloads + behind
    requires behind == record.gap + record.head + record.data + trailer
    requires members == opening.gap + opening.head + opening.data + payloads + (record.gap + record.head + record.data)
    ensures d == members + trailer
  {
  }

  lemma LastGap(x: Codecs, limits: Limits, m: Manifest, encoded: Bytes)
    requires GoodManifest(x, limits, m)
    ensures m.files != [] && Pending(m, encoded, |m.files|) == Pad(m.files[|m.files| - 1].bytes)
  {
    hide GoodEntry;
  }

  lemma Taken(w: World, x: Codecs, limits: Limits, s: Stream, inc: Incoming, m: Manifest, opening: Part,
              parts: seq<Part>, record: Part)
    requires Faithful(x.tar) && limits.Valid() && s.clean
    requires GoodManifest(x, limits, m) && IsTransfer(w, x, limits, s.data, m, opening, parts, record, inc)
    ensures Receive(w, x, limits, s) == Ok(inc)
  {
    hide Faithful, Next, ReceiveManifest, ReceivePayloads, ReceiveFile, GoodManifest, ArePayloads, Trailer, IsMember,
         Pending, ValidLineage, InheritsAll, Expect, Flat;
    var members := Flat([opening] + parts + [record]);
    var trailer := s.data[|members|..];
    assert s.data == members + trailer;
    FlatOf(opening, parts, record);
    var encoded := opening.data;
    var behind := record.gap + record.head + record.data + trailer;
    var rest := Flat(parts) + behind;
    assert s.data == opening.gap + opening.head + opening.data + rest;
    OpeningExactly(x, limits, s, m, encoded, rest);
    PayloadsExactly(w, x, limits, m, encoded, Stream(rest, true), |m.files|,
                    Payloads(inc.files, inc.payload, behind));
    LastGap(x, limits, m, encoded);
    ExpectExactly(x.tar, Stream(behind, true), Pending(m, encoded, |m.files|), COMPLETE, SEAL_BYTES, record.data,
                  trailer);
    LineageExactly(inc.files);
    TrailerIs(x.tar, true, members, trailer);
  }

  /** Receive, exactly: it accepts the transfers within its limits and nothing else, whatever the padding between the
      members holds, and returns the files and payloads they announce. */
  lemma ReceiveExactly(w: World, x: Codecs, limits: Limits, s: Stream, inc: Incoming)
    requires Sound(x, w)
    ensures Receive(w, x, limits, s) == Ok(inc) <==>
            limits.Valid() && s.clean && exists m, opening, parts, record ::
              IsTransfer(w, x, limits, s.data, m, opening, parts, record, inc)
  {
    hide Sound, Receive, IsTransfer, Faithful;
    SoundTar(x, w);
    if Receive(w, x, limits, s) == Ok(inc) {
      var m, opening, parts, record := Received(w, x, limits, s, inc);
    }
    forall m, opening, parts, record | limits.Valid() && s.clean &&
                                       IsTransfer(w, x, limits, s.data, m, opening, parts, record, inc)
      ensures Receive(w, x, limits, s) == Ok(inc)
    {
      ManifestOfTransfer(w, x, limits, s.data, m, opening, parts, record, inc);
      Taken(w, x, limits, s, inc, m, opening, parts, record);
    }
  }

  lemma ManifestOfTransfer(w: World, x: Codecs, limits: Limits, d: Bytes, m: Manifest, opening: Part, parts: seq<Part>,
                           record: Part, inc: Incoming)
    requires IsTransfer(w, x, limits, d, m, opening, parts, record, inc)
    ensures GoodManifest(x, limits, m)
  {
    hide GoodManifest;
  }

  lemma ManifestRefused(x: Codecs, limits: Limits, s: Stream, opening: Part, m: Manifest, rest: Bytes)
    requires Faithful(x.tar) && IsMember(x.tar, opening, 0, "manifest.json")
    requires s.data == opening.gap + opening.head + opening.data + rest
    requires x.decode(opening.data) == Some(m) && !GoodManifest(x, limits, m)
    ensures ReceiveManifest(x, limits, s).Err?
  {
    hide Faithful, Next, ValidManifest, GoodManifest;
    assert s.data == opening.gap + opening.head + (opening.data + rest);
    NextExactly(x.tar, s, 0, Header("manifest.json", true, "", |opening.data|), opening.data + rest);
    assert (opening.data + rest)[..|opening.data|] == opening.data;
    ManifestExactly(x, limits, m);
  }

  /** Of another protocol version nothing is accepted, whatever the receiver's limits: where a stream begins with a
      manifest member that decodes to any version but 1, Receive fails. */
  lemma OtherVersionRefused(w: World, x: Codecs, limits: Limits, s: Stream, opening: Part, m: Manifest, rest: Bytes)
    requires Sound(x, w) && IsMember(x.tar, opening, 0, "manifest.json")
    requires s.data == opening.gap + opening.head + opening.data + rest
    requires x.decode(opening.data) == Some(m) && m.version != 1
    ensures Receive(w, x, limits, s).Err?
  {
    hide Sound, Faithful, ReceiveManifest, ReceivePayloads, IsMember;
    SoundTar(x, w);
    ManifestRefused(x, limits, s, opening, m, rest);
  }
}
