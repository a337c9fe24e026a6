// The transfer stream: Export, copyPayload, Receive, validate and validateLineage of internal/session/stream.go.

module Wire {
  import opened Model
  import opened Format
  import opened Rollout
  import opened Inspect
  import opened Lineage
  import opened Conflicts
  import opened Slots
  import opened Tar

  const VERSION := 1
  const MANIFEST := "manifest.json"
  const COMPLETE := "complete.sha256"

  /** 1970-01-01 to the end of 2261, in nanoseconds: the years the manifest may carry. */
  const LAST_NANOSECOND := 9_214_646_400 * 1_000_000_000

  const MINUTE := 60 * 1_000_000_000

  /** A time as RFC 3339 carries it: the instant in nanoseconds since 1970 in UTC, and the zone's offset in minutes. */
  datatype Stamp = Stamp(instant: int, offset: int)

  const SEAL_BYTES: nat := 65

  datatype WireFile =
    WireFile(path: string, thread: string, rollout: string, bytes: nat, sha: string, modified: Stamp, prefix: bool)

  datatype Manifest = Manifest(version: int, thread: string, files: seq<WireFile>)

  /** The codecs of the stream: tar headers, the JSON manifest, the completion record of a manifest and the text form
      of a digest. */
  datatype Codecs = Codecs(
    tar: Codec,
    encode: Manifest -> Option<Bytes>,
    decode: Bytes -> Option<Manifest>,
    seal: Bytes -> Bytes,
    digest: string -> bool)

  /** What the codecs promise: headers are self-delimiting, an encoded manifest is read back, a completion record is a
      hexadecimal SHA-256 and a newline, and every digest is well formed. */
  ghost predicate Sound(x: Codecs, w: World) {
    Faithful(x.tar) &&
    (forall m: Manifest | x.encode(m).Some? :: x.decode(x.encode(m).value) == Some(m) && x.encode(m).value != []) &&
    (forall b: Bytes :: |x.seal(b)| == SEAL_BYTES) &&
    (forall b: Bytes :: x.digest(w.hash(b)))
  }

  /** futimes stores microseconds: the conversion rounds up, but before 1970 by dividing towards zero. */
  function Microseconds(modified: int): int {
    var n := modified + 999;
    if n >= 0 then n / 1000 * 1000 else -(-n / 1000 * 1000)
  }

  /** The year of a time in its own zone lies in the range. */
  predicate Dated(modified: Stamp) {
    0 <= modified.instant + modified.offset * MINUTE < LAST_NANOSECOND
  }

  /** A file's modification time, in the zone of the host it was read on. */
  function StampOf(w: World, f: File): Stamp {
    Stamp(f.modified, w.zone(f.modified))
  }

  function PayloadName(i: nat): string {
    "files/" + Padded(i) + ".jsonl"
  }

  /** Sizes and counts within the source's int64, so that every header can be written. */
  predicate Carriable(m: Manifest) {
    |m.files| <= MAX_INT64 && forall i | 0 <= i < |m.files| :: m.files[i].bytes <= MAX_INT64
  }

  lemma PayloadNamed(i: nat, size: nat)
    requires i <= MAX_INT64 && size <= MAX_INT64
    ensures Writable(PayloadName(i), size)
  {
    hide Padded, Pow10;
    SlotsRecognised(i);
    PaddedLength(i, 19);
    var name := PayloadName(i);
    forall c | c in name
      ensures 0 < c as int < 128
    {
      assert c in "files/" || c in Padded(i) || c in ".jsonl";
    }
  }

  // ---- validate ----

  function ValidEntry(x: Codecs, limits: Limits, m: Manifest, i: nat, seen: set<string>): bool
    requires i < |m.files|
  {
    var f := m.files[i];
    Canonical(f.thread) && Canonical(f.rollout) && f.rollout !in seen && x.digest(f.sha) &&
    ValidRelative(f.path) && ManagedPath(f.path) && HasSuffix(f.path, ".jsonl") &&
    1 <= f.bytes <= limits.fileBytes && f.prefix == (i < |m.files| - 1) && Dated(f.modified) &&
    (!f.prefix ==> f.thread == m.thread)
  }

  function Rollouts(m: Manifest, n: nat): (r: set<string>)
    requires n <= |m.files|
    ensures forall s :: s in r <==> exists j | 0 <= j < n :: m.files[j].rollout == s
  {
    set j | 0 <= j < n :: m.files[j].rollout
  }

  predicate ValidManifest(x: Codecs, limits: Limits, m: Manifest) {
    Canonical(m.thread) && m.version == VERSION && 1 <= |m.files| <= limits.files &&
    forall i | 0 <= i < |m.files| :: ValidEntry(x, limits, m, i, Rollouts(m, i))
  }

  lemma ValidCarriable(x: Codecs, limits: Limits, m: Manifest)
    requires ValidManifest(x, limits, m)
    ensures Carriable(m)
  {
    hide Canonical, ValidRelative, ManagedPath, Rollouts;
    forall i | 0 <= i < |m.files|
      ensures m.files[i].bytes <= MAX_INT64
    {
      assert ValidEntry(x, limits, m, i, Rollouts(m, i));
    }
  }

  /** The loop of manifest.validate. */
  method ValidateManifest(x: Codecs, limits: Limits, m: Manifest) returns (ok: bool)
    ensures ok <==> ValidManifest(x, limits, m)
  {
    hide ValidRelative, ManagedPath, Rollouts;
    if !Canonical(m.thread) || m.version != VERSION || |m.files| < 1 || |m.files| > limits.files {
      return false;
    }
    var seen := {};
    for i := 0 to |m.files|
      invariant seen == Rollouts(m, i)
      invariant forall j | 0 <= j < i :: ValidEntry(x, limits, m, j, Rollouts(m, j))
    {
      if !ValidEntry(x, limits, m, i, seen) {
        return false;
      }
      seen := seen + {m.files[i].rollout};
    }
    return true;
  }

  // ---- validateLineage ----

  predicate Inherits(parent: File, child: File) {
    child.meta.base.Some? && parent.meta.mode == "paginated" && parent.lastOrdinal < MAX_U64 &&
    EndsAt(child.meta.base.value, parent)
  }

  predicate ValidLineage(files: seq<File>) {
    (files != [] ==> files[0].meta.base.None?) && forall i | 0 < i < |files| :: Inherits(files[i - 1], files[i])
  }

  method ValidateLineage(files: seq<File>) returns (r: Result<()>)
    ensures r == if ValidLineage(files) then Ok(()) else Err(BadLineage)
  {
    for i := 0 to |files|
      invariant i > 0 ==> files[0].meta.base.None?
      invariant forall j | 0 < j < i :: Inherits(files[j - 1], files[j])
    {
      var base := files[i].meta.base;
      if i == 0 {
        if base.Some? {
          return Err(BadLineage);
        }
        continue;
      }
      var parent := files[i - 1];
      if base.None? || base.value.rollout != parent.rollout || base.value.endByte != parent.bytes ||
         parent.meta.mode != "paginated" || parent.lastOrdinal == MAX_U64 ||
         parent.lastOrdinal + 1 != base.value.endOrdinal {
        assert !Inherits(files[i - 1], files[i]);
        return Err(BadLineage);
      }
    }
    return Ok(());
  }

  // ---- Receive ----

  /** One received payload, staged, read back and checked against its entry. */
  function ReceiveFile(w: World, limits: Limits, i: nat, entry: WireFile, content: Bytes): Result<File> {
    if w.hash(content) != entry.sha then Err(ChecksumMismatch)
    else
      var staged := Node(i, content, Microseconds(entry.modified.instant));
      var read :- Read(w, staged, Candidate(PayloadSlot(i), entry.thread, entry.rollout), None, limits, false);
      var file := read.(path := entry.path, prefix := entry.prefix);
      if file.bytes != entry.bytes || file.sha != entry.sha then Err(SourceChanged)
      else
        var want :- PublicationPath(w, file);
        if want != entry.path then Err(BadPath) else Ok(file)
  }

  datatype Payloads = Payloads(files: seq<File>, contents: seq<Bytes>, rest: Bytes)

  /** Padding left unread before the i-th payload. */
  function Pending(m: Manifest, encoded: Bytes, i: nat): nat
    requires i <= |m.files|
  {
    Pad(if i == 0 then |encoded| else m.files[i - 1].bytes)
  }

  /** The first n payloads. */
  function ReceivePayloads(w: World, x: Codecs, limits: Limits, m: Manifest, encoded: Bytes, s: Stream,
                           n: nat): Result<Payloads>
    requires n <= |m.files|
  {
    if n == 0 then Ok(Payloads([], [], s.data))
    else
      var before :- ReceivePayloads(w, x, limits, m, encoded, s, n - 1);
      var entry := m.files[n - 1];
      var (content, rest) :-
        Expect(x.tar, Stream(before.rest, s.clean), Pending(m, encoded, n - 1), PayloadName(n - 1), entry.bytes);
      var file :- ReceiveFile(w, limits, n - 1, entry, content);
      Ok(Payloads(before.files + [file], before.contents + [content], rest))
  }

  /** The manifest member and what it says. */
  function ReceiveManifest(x: Codecs, limits: Limits, s: Stream): Result<(Manifest, Bytes, Bytes)> {
    match Next(x.tar, s, 0)
    case End(_) => Err(Truncated)
    case Failed => Err(BadMember)
    case At(h, rest) =>
      if h.name != MANIFEST || !h.regular || h.link != "" || h.size < 1 ||
        h.size > limits.manifestBytes then Err(BadManifest)
      else
        var (encoded, behind) :- Body(Stream(rest, s.clean), h.size);
        match x.decode(encoded)
        case None => Err(BadManifest)
        case Some(m) => if !ValidManifest(x, limits, m) then Err(BadManifest) else Ok((m, encoded, behind))
  }

  /** The completion record, and what follows it. */
  function ReceiveCompletion(x: Codecs, m: Manifest, encoded: Bytes, s: Stream): Result<Bytes> {
    var (completion, rest) :- Expect(x.tar, s, Pending(m, encoded, |m.files|), COMPLETE, SEAL_BYTES);
    if completion != x.seal(encoded) then Err(ChecksumMismatch) else Ok(rest)
  }

  /** Everything up to the completion record's data; what remains must be the trailer. */
  function ReceiveBody(w: World, x: Codecs, limits: Limits, s: Stream): Result<(Incoming, Bytes)> {
    var (m, encoded, rest) :- ReceiveManifest(x, limits, s);
    var payloads :- ReceivePayloads(w, x, limits, m, encoded, Stream(rest, s.clean), |m.files|);
    if !ValidLineage(payloads.files) then Err(BadLineage)
    else
      var behind :- ReceiveCompletion(x, m, encoded, Stream(payloads.rest, s.clean));
      Ok((Incoming(m.thread, payloads.files, payloads.contents), behind))
  }

  function Receive(w: World, x: Codecs, limits: Limits, s: Stream): Result<Incoming> {
    if !limits.Valid() then Err(InvalidLimits)
    else
      var (inc, rest) :- ReceiveBody(w, x, limits, s);
      if Trailer(x.tar, Stream(rest, s.clean), SEAL_BYTES) then Ok(inc) else Err(TrailingData)
  }

  // ---- Export ----

  /** copyPayload from a pinned descriptor: `now` is what the descriptor's file holds when it is read, of which at most
      the captured size is looked at. */
  function CopyPayload(w: World, f: File, now: Bytes, exact: bool): Result<Bytes> {
    var section := if |now| < |f.stored.raw| then now else now[..|f.stored.raw|];
    var d := Decoded(w, f.source, section);
    if |d.data| < f.bytes then Err(if d.clean then Truncated else ReadFailed)
    else if w.hash(d.data[..f.bytes]) != f.sha then Err(SourceChanged)
    else if exact && (|d.data| != f.bytes || !d.clean) then Err(SourceChanged)
    else Ok(d.data[..f.bytes])
  }

  function Exact(f: File): bool {
    HasSuffix(f.source, ".zst") && !f.prefix
  }

  function EntryOf(w: World, f: File): Result<WireFile> {
    var path :- PublicationPath(w, f);
    Ok(WireFile(path, f.thread, f.rollout, f.bytes, f.sha, StampOf(w, f), f.prefix))
  }

  function EntriesOf(w: World, files: seq<File>): Result<seq<WireFile>> {
    if files == [] then Ok([])
    else
      var before :- EntriesOf(w, files[..|files| - 1]);
      var last :- EntryOf(w, files[|files| - 1]);
      Ok(before + [last])
  }

  /** The manifest of a plan and its encoding within the limit. */
  function ManifestOf(w: World, x: Codecs, limits: Limits, p: Plan): Result<(Manifest, Bytes)> {
    var entries :- EntriesOf(w, p.files);
    var m := Manifest(VERSION, p.thread, entries);
    match x.encode(m)
    case None => Err(Unencodable)
    case Some(encoded) => if |encoded| > limits.manifestBytes then Err(ManifestTooLong) else Ok((m, encoded))
  }

  /** The payloads of the first n files, as their descriptors yield them; `now(i)` is what the i-th one holds when it
      is read. */
  function CopyAll(w: World, files: seq<File>, now: nat -> Bytes, n: nat): Result<seq<Bytes>>
    requires n <= |files|
  {
    if n == 0 then Ok([])
    else
      var before :- CopyAll(w, files, now, n - 1);
      var last :- CopyPayload(w, files[n - 1], now(n - 1), Exact(files[n - 1]));
      Ok(before + [last])
  }

  // ---- the bytes of a stream ----

  function Opening(x: Codecs, encoded: Bytes): Bytes {
    x.tar.write(MANIFEST, |encoded|) + encoded
  }

  /** The padding due before the i-th payload. */
  function PaddingDue(encoded: Bytes, contents: seq<Bytes>, i: nat): nat
    requires i <= |contents|
  {
    Pad(if i == 0 then |encoded| else |contents[i - 1]|)
  }

  function PayloadBytes(x: Codecs, encoded: Bytes, contents: seq<Bytes>, n: nat): Bytes
    requires n <= |contents|
  {
    if n == 0 then []
    else
      PayloadBytes(x, encoded, contents, n - 1) + Zero(PaddingDue(encoded, contents, n - 1)) +
      (x.tar.write(PayloadName(n - 1), |contents[n - 1]|) + contents[n - 1])
  }

  function Closing(x: Codecs, encoded: Bytes, contents: seq<Bytes>): Bytes {
    Zero(PaddingDue(encoded, contents, |contents|)) + (x.tar.write(COMPLETE, SEAL_BYTES) + x.seal(encoded)) +
    (Zero(Pad(SEAL_BYTES)) + Zero(2 * BLOCK))
  }

  function StreamBytes(x: Codecs, encoded: Bytes, contents: seq<Bytes>): Bytes {
    Opening(x, encoded) + PayloadBytes(x, encoded, contents, |contents|) + Closing(x, encoded, contents)
  }

  /** Export of a snapshot's plan. */
  function Export(w: World, x: Codecs, limits: Limits, p: Plan, now: nat -> Bytes): Result<Bytes> {
    var (m, encoded) :- ManifestOf(w, x, limits, p);
    var contents :- CopyAll(w, p.files, now, |p.files|);
    Ok(StreamBytes(x, encoded, contents))
  }
}
