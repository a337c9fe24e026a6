// Validating and hashing rollout files: internal/session/rollout.go.

module Rollout {
  import opened Model
  import opened Format

  // ---- records ----

  /** Index of the first newline, or the length. */
  function FirstNewline(d: Bytes): (n: nat)
    ensures n <= |d|
    ensures n < |d| ==> d[n] == NEWLINE
    ensures NEWLINE !in d[..n]
  {
    if d == [] || d[0] == NEWLINE then 0
    else
      var n := 1 + FirstNewline(d[1..]);
      assert d[..n] == [d[0]] + d[1..][..n - 1];
      n
  }

  /** The next newline-terminated record of the unread bytes; an empty one at the end of the file. */
  function NextRecord(rest: Bytes, clean: bool, max: int): (r: Result<Bytes>)
    ensures r.Ok? ==> r.value <= rest && (r.value == [] <==> rest == []) && |r.value| <= |rest|
  {
    var n := FirstNewline(rest);
    if rest == [] then (if clean then Ok([]) else Err(ReadFailed))
    else if n == |rest| then
      Err(if |rest| > max then RecordTooLong else if clean then IncompleteRecord else ReadFailed)
    else if n + 1 > max then Err(RecordTooLong)
    else Ok(rest[..n + 1])
  }

  function ValidateMetadata(m: Metadata, thread: string): Result<Metadata> {
    var mode := if m.mode == "" then "legacy" else m.mode;
    match ParseID(m.thread)
    case None => Err(BadMetadata)
    case Some(id) =>
      if id != thread || (mode != "legacy" && mode != "paginated") then Err(BadMetadata)
      else match m.base
        case None => Ok(Metadata(id, m.timestamp, mode, None))
        case Some(b) =>
          if ParseID(b.rollout).None? || b.endOrdinal == 0 || b.endOrdinal == MAX_U64 || b.endByte == 0 ||
             mode != "paginated"
          then Err(BadMetadata)
          else Ok(Metadata(id, m.timestamp, mode, Some(b.(rollout := ParseID(b.rollout).value))))
  }

  /** What the reader has established after a number of records. */
  datatype Scan = Scan(meta: Metadata, saw: bool, previous: u64, records: nat, bytes: nat)

  const START := Scan(Metadata("", "", "", None), false, 0, 0, 0)

  function AdmitMetadata(thread: string, st: Scan, line: Line): Result<(Metadata, bool)> {
    if line.kind == "session_meta" && !st.saw then
      if line.meta.None? then Err(BadMetadata)
      else
        var meta :- ValidateMetadata(line.meta.value, thread);
        if meta.mode == "paginated" && st.records != 0 then Err(MisplacedMetadata) else Ok((meta, true))
    else if line.kind == "session_meta" && st.meta.mode == "paginated" then Err(MisplacedMetadata)
    else Ok((st.meta, st.saw))
  }

  /** The ordinal the first record of a rollout must carry. */
  function FirstOrdinal(meta: Metadata): u64 {
    if meta.base.Some? then meta.base.value.endOrdinal else 0
  }

  function AdmitOrdinal(meta: Metadata, st: Scan, ordinal: Option<u64>): Result<u64> {
    if meta.mode != "paginated" then Ok(st.previous)
    else if ordinal.None? then Err(BadOrdinal)
    else if st.records == 0 then
      if ordinal.value != FirstOrdinal(meta) then Err(BadOrdinal) else Ok(ordinal.value)
    else if ordinal.value <= st.previous then Err(BadOrdinal)
    else Ok(ordinal.value)
  }

  /** One turn of the reader's loop. */
  function Admit(w: World, thread: string, fileBytes: int, st: Scan, record: Bytes): Result<Scan> {
    if |record| > fileBytes - st.bytes then Err(FileTooLong)
    else match w.parse(record)
      case None => Err(BadRecord)
      case Some(line) =>
        if line.kind == "" || !line.hasPayload then Err(BadRecord)
        else
          var (meta, saw) :- AdmitMetadata(thread, st, line);
          var previous :- AdmitOrdinal(meta, st, line.ordinal);
          Ok(Scan(meta, saw, previous, st.records + 1, st.bytes + |record|))
  }

  function ScanAll(w: World, thread: string, limits: Limits, s: Stream, st: Scan): Result<Scan>
    decreases |s.data|
  {
    var record :- NextRecord(s.data, s.clean, limits.recordBytes);
    if record == [] then Ok(st)
    else
      var next :- Admit(w, thread, limits.fileBytes, st, record);
      ScanAll(w, thread, limits, s.(data := s.data[|record|..]), next)
  }

  // ---- rollouts ----

  /** The decoded reader of a stored file. */
  function Decoded(w: World, path: string, raw: Bytes): Stream {
    if HasSuffix(path, ".zst") then w.inflate(raw) else Stream(raw, true)
  }

  /** io.LimitReader at the cutoff of an inherited prefix. */
  function Limited(s: Stream, end: Option<HistoryPosition>): Stream {
    if end.Some? && end.value.endByte <= |s.data| then Stream(s.data[..end.value.endByte], true) else s
  }

  datatype Summary = Summary(bytes: nat, sha: string, meta: Metadata, lastOrdinal: u64)

  predicate ValidCutoff(end: HistoryPosition, limits: Limits) {
    end.endByte != 0 && end.endByte <= limits.fileBytes && end.endOrdinal != 0
  }

  function Finish(w: World, data: Bytes, st: Scan, end: Option<HistoryPosition>): Result<Summary> {
    if !st.saw then Err(MissingMetadata)
    else if end.Some? && (st.meta.mode != "paginated" || st.bytes != end.value.endByte ||
                          st.previous == MAX_U64 || st.previous + 1 != end.value.endOrdinal)
    then Err(BoundaryMismatch)
    else Ok(Summary(st.bytes, w.hash(data), st.meta, st.previous))
  }

  /** What reading decoded bytes up to a cutoff establishes about a rollout of the given thread. */
  function Summarize(w: World, s: Stream, thread: string, end: Option<HistoryPosition>,
                     limits: Limits): Result<Summary> {
    if end.Some? && !ValidCutoff(end.value, limits) then Err(InvalidBoundary)
    else
      var limited := Limited(s, end);
      var st :- ScanAll(w, thread, limits, limited, START);
      Finish(w, limited.data, st, end)
  }

  /** End of the last saved record, when the unfinished tail is within the limit. */
  function SavedBoundary(d: Bytes, maxRecord: int): Result<nat> {
    var b := AfterLastNewline(d);
    if |d| - b > maxRecord then Err(UnfinishedRecord)
    else if b == 0 then Err(NoSavedRecords)
    else Ok(b)
  }

  function AfterLastNewline(d: Bytes): (b: nat)
    ensures b <= |d|
    ensures b > 0 ==> d[b - 1] == NEWLINE
    ensures NEWLINE !in d[b..]
  {
    if d == [] || d[|d| - 1] == NEWLINE then |d|
    else
      var b := AfterLastNewline(d[..|d| - 1]);
      assert d[b..] == d[..|d| - 1][b..] + [d[|d| - 1]];
      b
  }

  /** The bytes a snapshot captures: of a plain main file, the saved records only. */
  function Captured(w: World, path: string, raw: Bytes, end: Option<HistoryPosition>, maxRecord: int): Result<Stream> {
    if end.None? && !HasSuffix(path, ".zst") then
      var b :- SavedBoundary(raw, maxRecord);
      if b <= |raw| then Ok(Stream(raw[..b], true)) else Err(ReadFailed)
    else Ok(Decoded(w, path, raw))
  }

  function FileOf(c: Candidate, node: Node, end: Option<HistoryPosition>, s: Summary): File {
    File(c.path, TrimSuffix(c.path, ".zst"), c.thread, c.rollout, s.bytes, s.sha, node.mtime, end.Some?,
         s.meta, s.lastOrdinal, node)
  }

  /** readRollout, or with `snapshot` the capture of a live source file. */
  function Read(w: World, node: Node, c: Candidate, end: Option<HistoryPosition>, limits: Limits,
                snapshot: bool): Result<File> {
    var s :- if snapshot then Captured(w, c.path, node.raw, end, limits.recordBytes) else Ok(Decoded(w, c.path,
      node.raw));
    var summary :- Summarize(w, s, c.thread, end, limits);
    Ok(FileOf(c, node, end, summary))
  }

  // ---- the loops of the source ----

  /** Go's bufio.Reader over a decoded rollout, with the source's 64 KiB buffer. */
  datatype SliceStatus = Delimited | BufferFull | EndOfInput

  const BUFFER: int := 65536

  class RecordReader {
    const data: Bytes
    const clean: bool
    var pos: nat

    constructor (s: Stream)
      ensures data == s.data && clean == s.clean && pos == 0
    {
      data, clean, pos := s.data, s.clean, 0;
    }

    /** bufio's ReadSlice('\n'): at most one buffer of bytes. */
    method ReadSlice() returns (fragment: Bytes, status: SliceStatus)
      requires pos <= |data|
      modifies this
      ensures old(pos) <= pos <= |data| && fragment == data[old(pos)..pos]
      ensures status == Delimited <==> fragment != [] && fragment[|fragment| - 1] == NEWLINE
      ensures status == Delimited ==> NEWLINE !in fragment[..|fragment| - 1]
      ensures status != Delimited ==> NEWLINE !in fragment
      ensures status == BufferFull ==> |fragment| == BUFFER
      ensures status == EndOfInput ==> pos == |data|
    {
      var rest := data[pos..];
      var n := FirstNewline(rest);
      if n < |rest| && n < BUFFER {
        fragment, status := rest[..n + 1], Delimited;
        assert fragment[..n] == rest[..n];
      } else if |rest| >= BUFFER {
        fragment, status := rest[..BUFFER], BufferFull;
        assert forall i | 0 <= i < BUFFER :: rest[i] == rest[..n][i];
      } else {
        fragment, status := rest, EndOfInput;
        assert rest[..n] == rest;
      }
      pos := pos + |fragment|;
    }

    method ReadRecord(max: int) returns (r: Result<Bytes>)
      requires pos <= |data| && max >= 1
      modifies this
      ensures r == NextRecord(data[old(pos)..], clean, max)
      ensures old(pos) <= pos <= |data|
      ensures r.Ok? ==> pos == old(pos) + |r.value|
    {
      var record: Bytes := [];
      var reading := true;
      r := Ok([]);
      while reading
        invariant old(pos) <= pos <= |data|
        invariant record == data[old(pos)..pos] && |record| <= max
        invariant reading ==> NEWLINE !in record
        invariant !reading ==> r == NextRecord(data[old(pos)..], clean, max) && (r.Ok? ==> r.value == record)
        decreases reading, |data| - pos
      {
        var fragment, status := ReadSlice();
        var rest := data[old(pos)..];
        assert record + fragment == data[old(pos)..pos] == rest[..|record| + |fragment|];
        if |fragment| > max - |record| {
          LongRecord(rest, record, fragment);
          return Err(RecordTooLong);
        }
        record := record + fragment;
        if status == Delimited {
          FirstNewlineIs(rest, |record| - 1);
          reading, r := false, Ok(record);
        } else if status == EndOfInput {
          assert rest == record;
          WithoutNewline(rest);
          if !clean {
            reading, r := false, Err(ReadFailed);
          } else if record != [] {
            reading, r := false, Err(IncompleteRecord);
          } else {
            reading, r := false, Ok(record);
          }
        }
      }
    }
  }

  lemma Before(d: Bytes, n: nat)
    requires n <= |d| && NEWLINE !in d[..n]
    ensures forall i | 0 <= i < n :: d[i] != NEWLINE
  {
    forall i | 0 <= i < n
      ensures d[i] != NEWLINE
    {
      assert d[i] == d[..n][i];
    }
  }

  lemma After(d: Bytes, n: nat)
    requires n <= |d| && NEWLINE !in d[n..]
    ensures forall i | n <= i < |d| :: d[i] != NEWLINE
  {
    forall i | n <= i < |d|
      ensures d[i] != NEWLINE
    {
      assert d[i] == d[n..][i - n];
    }
  }

  lemma FirstNewlineIs(d: Bytes, n: nat)
    requires n < |d| && d[n] == NEWLINE && NEWLINE !in d[..n]
    ensures FirstNewline(d) == n
  {
    Before(d, FirstNewline(d));
    Before(d, n);
  }

  lemma WithoutNewline(d: Bytes)
    requires NEWLINE !in d
    ensures FirstNewline(d) == |d|
  {
  }

  lemma LongRecord(rest: Bytes, record: Bytes, fragment: Bytes)
    requires record + fragment <= rest && NEWLINE !in record
    requires fragment != [] && NEWLINE !in fragment[..|fragment| - 1]
    ensures FirstNewline(rest) >= |record + fragment| - 1
  {
    var n, k := FirstNewline(rest), |record| + |fragment|;
    Before(record, |record|);
    Before(fragment, |fragment| - 1);
    assert rest[..k] == record + fragment;
    assert forall i | 0 <= i < k - 1 :: rest[i] == (record + fragment)[i] != NEWLINE;
  }

  /** ReadAt of a regular file into the scan buffer. */
  method ReadAt(d: Bytes, buffer: array<byte>, count: nat, offset: nat) returns (ok: bool)
    requires count <= buffer.Length
    modifies buffer
    ensures ok <==> offset + count <= |d|
    ensures ok ==> buffer[..count] == d[offset..offset + count]
  {
    ok := offset + count <= |d|;
    if ok {
      for i := 0 to count
        invariant forall k | 0 <= k < i :: buffer[k] == d[offset + k]
      {
        buffer[i] := d[offset + i];
      }
    }
  }

  /** bytes.LastIndexByte(buffer[:count], '\n'). */
  method LastNewline(buffer: array<byte>, count: nat) returns (index: int)
    requires count <= buffer.Length
    ensures -1 <= index < count
    ensures index >= 0 ==> buffer[index] == NEWLINE
    ensures forall k | index < k < count :: buffer[k] != NEWLINE
  {
    index := count - 1;
    while index >= 0 && buffer[index] != NEWLINE
      invariant -1 <= index < count
      invariant forall k | index < k < count :: buffer[k] != NEWLINE
    {
      index := index - 1;
    }
  }

  lemma BoundaryIs(d: Bytes, b: nat)
    requires b <= |d| && (b > 0 ==> d[b - 1] == NEWLINE) && NEWLINE !in d[b..]
    ensures AfterLastNewline(d) == b
  {
    After(d, AfterLastNewline(d));
    After(d, b);
  }

  /** The backward chunked scan finds the last saved record of the first `size` bytes, reading no more than the
      record limit and one chunk; it fails when the file is shorter than it was, when no record is saved, or when
      the unfinished tail is too long. */
  method SavedRecordBoundary(d: Bytes, size: nat, maxRecord: int) returns (r: Result<nat>, scanned: nat)
    requires maxRecord >= 1
    ensures size > |d| ==> r == Err(ReadFailed)
    ensures size <= |d| ==> r == SavedBoundary(d[..size], maxRecord)
    ensures scanned <= maxRecord + BUFFER
  {
    var buffer := new byte[BUFFER];
    var remaining := size;
    scanned := 0;
    while remaining > 0
      invariant 0 <= remaining <= size && scanned == size - remaining
      invariant remaining < size ==> size <= |d| && size - remaining <= maxRecord
      invariant size <= |d| ==> NEWLINE !in d[remaining..size]
    {
      var count := if remaining < BUFFER then remaining else BUFFER;
      var ok := ReadAt(d, buffer, count, remaining - count);
      if !ok {
        return Err(ReadFailed), scanned;
      }
      scanned := scanned + count;
      var index := LastNewline(buffer, count);
      ghost var chunk := buffer[..count];
      assert forall k | 0 <= k < count :: d[remaining - count + k] == chunk[k] == buffer[k];
      if index >= 0 {
        var boundary := remaining - count + index + 1;
        assert d[boundary - 1] == NEWLINE;
        assert forall k | boundary <= k < remaining :: d[k] == buffer[k - (remaining - count)];
        assert d[..size][boundary..] == d[boundary..remaining] + d[remaining..size];
        BoundaryIs(d[..size], boundary);
        if size - boundary > maxRecord {
          return Err(UnfinishedRecord), scanned;
        }
        return Ok(boundary), scanned;
      }
      assert forall k | remaining - count <= k < remaining :: d[k] == buffer[k - (remaining - count)];
      assert d[remaining - count..size] == d[remaining - count..remaining] + d[remaining..size];
      remaining := remaining - count;
      if size - remaining > maxRecord {
        TailTooLong(d[..size], remaining);
        assert d[..size][remaining..] == d[remaining..size];
        return Err(UnfinishedRecord), scanned;
      }
    }
    if size <= |d| {
      assert d[..size][0..] == d[0..size];
      BoundaryIs(d[..size], 0);
    }
    return Err(NoSavedRecords), scanned;
  }

  lemma TailTooLong(d: Bytes, from: nat)
    requires from <= |d|
    ensures NEWLINE !in d[from..] ==> AfterLastNewline(d) <= from
  {
    if NEWLINE !in d[from..] {
      After(d, from);
    }
  }

  /** The record loop of readRolloutFile. */
  method ScanRecords(w: World, thread: string, limits: Limits, input: Stream) returns (r: Result<Scan>)
    requires limits.Valid()
    ensures r == ScanAll(w, thread, limits, input, START)
  {
    hide Admit, NextRecord;
    var reader := new RecordReader(input);
    var st := START;
    while true
      invariant reader.pos <= |reader.data| && reader.data == input.data && reader.clean == input.clean
      invariant ScanAll(w, thread, limits, input, START) ==
                ScanAll(w, thread, limits, Stream(input.data[reader.pos..], input.clean), st)
      decreases |reader.data| - reader.pos
    {
      ghost var rest := input.data[reader.pos..];
      var record := reader.ReadRecord(limits.recordBytes);
      if record.Err? {
        return Err(record.error);
      }
      if record.value == [] {
        return Ok(st);
      }
      var next := Admit(w, thread, limits.fileBytes, st, record.value);
      if next.Err? {
        return Err(next.error);
      }
      assert rest[|record.value|..] == input.data[reader.pos..];
      st := next.value;
    }
  }

  /** readRolloutFile. */
  method ReadRolloutFile(w: World, node: Node, c: Candidate, end: Option<HistoryPosition>, limits: Limits,
                         snapshot: bool)
    returns (r: Result<File>)
    requires limits.Valid()
    ensures r == Read(w, node, c, end, limits, snapshot)
  {
    var s := Decoded(w, c.path, node.raw);
    if snapshot && end.None? && !HasSuffix(c.path, ".zst") {
      var size, _ := SavedRecordBoundary(node.raw, |node.raw|, limits.recordBytes);
      assert node.raw[..|node.raw|] == node.raw;
      if size.Err? {
        return Err(size.error);
      }
      s := Stream(node.raw[..size.value], true);
    }
    if end.Some? {
      if end.value.endByte == 0 || end.value.endByte > limits.fileBytes || end.value.endOrdinal == 0 {
        return Err(InvalidBoundary);
      }
    }
    var input := Limited(s, end);
    var st := ScanRecords(w, c.thread, limits, input);
    if st.Err? {
      return Err(st.error);
    }
    var summary := Finish(w, input.data, st.value, end);
    if summary.Err? {
      return Err(summary.error);
    }
    return Ok(FileOf(c, node, end, summary.value));
  }
}
