// What a successful read at a cutoff says, and what it does not depend on: internal/session/rollout.go.

module Cutoff {
  import opened Model
  import opened Format
  import opened Rollout

  /** A completed scan has read every byte of a cleanly ending stream. */
  lemma {:induction false} ScanCoversAll(w: World, thread: string, limits: Limits, s: Stream, st: Scan)
    requires ScanAll(w, thread, limits, s, st).Ok?
    ensures s.clean
    ensures ScanAll(w, thread, limits, s, st).value.bytes == st.bytes + |s.data|
    decreases |s.data|
  {
    hide AdmitMetadata, AdmitOrdinal;
    var record := NextRecord(s.data, s.clean, limits.recordBytes).value;
    if record != [] {
      var next := Admit(w, thread, limits.fileBytes, st, record).value;
      ScanCoversAll(w, thread, limits, s.(data := s.data[|record|..]), next);
    }
  }

  /** The bytes a successful summary is about. */
  function Content(s: Stream, end: Option<HistoryPosition>): Bytes {
    Limited(s, end).data
  }

  lemma SummaryCovers(w: World, s: Stream, thread: string, end: Option<HistoryPosition>, limits: Limits)
    requires Summarize(w, s, thread, end, limits).Ok?
    ensures var sum := Summarize(w, s, thread, end, limits).value;
            sum.bytes == |Content(s, end)| && sum.sha == w.hash(Content(s, end))
    ensures Limited(s, end).clean
    ensures end.Some? ==> end.value.endByte <= |s.data| && |Content(s, end)| == end.value.endByte
  {
    ScanCoversAll(w, thread, limits, Limited(s, end), START);
  }

  /** A read at a cutoff depends on the bytes before the cutoff only: on any file that agrees there, whatever follows
      and whether or not the rest is readable, it establishes the same size, digest, metadata and last ordinal. */
  lemma CutoffLocality(w: World, s: Stream, t: Stream, thread: string, end: HistoryPosition, limits: Limits)
    requires Summarize(w, s, thread, Some(end), limits).Ok?
    requires end.endByte <= |t.data| && (end.endByte <= |s.data| ==> t.data[..end.endByte] == s.data[..end.endByte])
    ensures Summarize(w, t, thread, Some(end), limits) == Summarize(w, s, thread, Some(end), limits)
  {
    SummaryCovers(w, s, thread, Some(end), limits);
    assert Limited(s, Some(end)) == Limited(t, Some(end));
  }

  /** Reading at a cutoff and reading those bytes as a complete file establish the same. */
  lemma CutoffIsWhole(w: World, s: Stream, thread: string, end: HistoryPosition, limits: Limits)
    requires Summarize(w, s, thread, Some(end), limits).Ok?
    ensures Summarize(w, Stream(Content(s, Some(end)), true), thread, None, limits) ==
            Summarize(w, s, thread, Some(end), limits)
    ensures var sum := Summarize(w, s, thread, Some(end), limits).value;
            sum.meta.mode == "paginated" && sum.lastOrdinal < MAX_U64 &&
            end.endByte == sum.bytes && end.endOrdinal == sum.lastOrdinal + 1
  {
    SummaryCovers(w, s, thread, Some(end), limits);
  }

  /** A complete paginated file can be read at its own end in every file that extends it. */
  lemma WholeIsCutoff(w: World, content: Bytes, t: Stream, thread: string, end: HistoryPosition, limits: Limits)
    requires var whole := Summarize(w, Stream(content, true), thread, None, limits);
             whole.Ok? && whole.value.meta.mode == "paginated" && whole.value.lastOrdinal < MAX_U64 &&
             end.endByte == whole.value.bytes && end.endOrdinal == whole.value.lastOrdinal + 1
    requires content <= t.data && 0 < |content| <= limits.fileBytes
    ensures Summarize(w, t, thread, Some(end), limits) == Summarize(w, Stream(content, true), thread, None, limits)
  {
    SummaryCovers(w, Stream(content, true), thread, None, limits);
    assert Limited(t, Some(end)) == Stream(content, true);
  }

  lemma {:induction false} ScanWithinLimit(w: World, thread: string, limits: Limits, s: Stream, st: Scan)
    requires ScanAll(w, thread, limits, s, st).Ok? && st.bytes <= limits.fileBytes
    ensures st.bytes + |s.data| <= limits.fileBytes
    decreases |s.data|
  {
    hide AdmitMetadata, AdmitOrdinal;
    var record := NextRecord(s.data, s.clean, limits.recordBytes).value;
    if record != [] {
      var next := Admit(w, thread, limits.fileBytes, st, record).value;
      ScanWithinLimit(w, thread, limits, s.(data := s.data[|record|..]), next);
    }
  }

  /** A readable file is not empty and not above the file limit. */
  lemma SummaryBounds(w: World, s: Stream, thread: string, end: Option<HistoryPosition>, limits: Limits)
    requires Summarize(w, s, thread, end, limits).Ok? && limits.fileBytes >= 0
    ensures var sum := Summarize(w, s, thread, end, limits).value;
            0 < sum.bytes <= limits.fileBytes && (sum.meta.mode == "legacy" || sum.meta.mode == "paginated")
    ensures var sum := Summarize(w, s, thread, end, limits).value;
            sum.meta.thread == thread && Canonical(thread) && (sum.meta.base.Some? ==>
              sum.meta.mode == "paginated" && Canonical(sum.meta.base.value.rollout) &&
              sum.meta.base.value.endByte > 0 && 0 < sum.meta.base.value.endOrdinal < MAX_U64)
  {
    SummaryCovers(w, s, thread, end, limits);
    ScanWithinLimit(w, thread, limits, Limited(s, end), START);
    ScanMetadata(w, thread, limits, Limited(s, end), START);
    assert Content(s, end) == [] ==> ScanAll(w, thread, limits, Limited(s, end), START) == Ok(START);
  }

  /** Metadata as ValidateMetadata leaves it. */
  predicate AdmittedMetadata(meta: Metadata, thread: string) {
    meta.thread == thread && Canonical(thread) && (meta.mode == "legacy" || meta.mode == "paginated") &&
    (meta.base.Some? ==>
       meta.mode == "paginated" && Canonical(meta.base.value.rollout) &&
       meta.base.value.endByte > 0 && 0 < meta.base.value.endOrdinal < MAX_U64)
  }

  lemma ValidateMetadataAdmits(m: Metadata, thread: string)
    requires ValidateMetadata(m, thread).Ok?
    ensures AdmittedMetadata(ValidateMetadata(m, thread).value, thread)
  {
    ParseIDCanonical(ParseID(m.thread).value);
    if m.base.Some? {
      ParseIDCanonical(ParseID(m.base.value.rollout).value);
    }
  }

  lemma {:induction false} ScanMetadata(w: World, thread: string, limits: Limits, s: Stream, st: Scan)
    requires ScanAll(w, thread, limits, s, st).Ok?
    requires st.saw ==> AdmittedMetadata(st.meta, thread)
    ensures var r := ScanAll(w, thread, limits, s, st).value; r.saw ==> AdmittedMetadata(r.meta, thread)
    decreases |s.data|
  {
    hide AdmitOrdinal, ValidateMetadata, AdmittedMetadata;
    var record := NextRecord(s.data, s.clean, limits.recordBytes).value;
    if record != [] {
      var line := w.parse(record).value;
      if line.kind == "session_meta" && !st.saw {
        ValidateMetadataAdmits(line.meta.value, thread);
      }
      var next := Admit(w, thread, limits.fileBytes, st, record).value;
      ScanMetadata(w, thread, limits, s.(data := s.data[|record|..]), next);
    }
  }

  // ---- ordinals ----

  /** The ordinals of the records of a file, in file order. */
  function Ordinals(w: World, d: Bytes): seq<u64>
    decreases |d|
  {
    var n := FirstNewline(d);
    if n == |d| then []
    else
      var line := w.parse(d[..n + 1]);
      (if line.Some? && line.value.ordinal.Some? then [line.value.ordinal.value] else []) + Ordinals(w, d[n + 1..])
  }

  ghost predicate Increasing(s: seq<u64>) {
    forall i, j | 0 <= i < j < |s| :: s[i] < s[j]
  }

  lemma PrependIncreasing(x: u64, s: seq<u64>)
    requires Increasing(s) && (s != [] ==> x < s[0])
    ensures Increasing([x] + s)
  {
    var t := [x] + s;
    forall i, j | 0 <= i < j < |t|
      ensures t[i] < t[j]
    {
      assert t[j] == s[j - 1];
      if i > 0 {
        assert t[i] == s[i - 1];
      }
    }
  }

  lemma NextPaginated(w: World, thread: string, limits: Limits, st: Scan, record: Bytes, next: Scan)
    requires Admit(w, thread, limits.fileBytes, st, record) == Ok(next)
    requires st.saw && st.meta.mode == "paginated" && st.records > 0
    ensures next.saw && next.meta == st.meta && next.records > 0 && st.previous < next.previous
    ensures w.parse(record).Some? && w.parse(record).value.ordinal == Some(next.previous)
  {
  }

  lemma OrdinalsStep(w: World, s: Stream, limits: Limits, record: Bytes, ordinal: u64)
    requires NextRecord(s.data, s.clean, limits.recordBytes) == Ok(record) && record != []
    requires w.parse(record).Some? && w.parse(record).value.ordinal == Some(ordinal)
    ensures Ordinals(w, s.data) == [ordinal] + Ordinals(w, s.data[|record|..])
  {
  }

  /** From a paginated state on, every record carries a larger ordinal than the one before. */
  lemma {:induction false} ScanOrdinals(w: World, thread: string, limits: Limits, s: Stream, st: Scan)
    requires ScanAll(w, thread, limits, s, st).Ok?
    requires st.saw && st.meta.mode == "paginated" && st.records > 0
    ensures var r, o := ScanAll(w, thread, limits, s, st).value, Ordinals(w, s.data);
            Increasing(o) && (o != [] ==> st.previous < o[0]) &&
            r.previous == (if o == [] then st.previous else o[|o| - 1]) && r.meta == st.meta
    decreases |s.data|
  {
    hide Admit;
    var record := NextRecord(s.data, s.clean, limits.recordBytes).value;
    if record != [] {
      var next := Admit(w, thread, limits.fileBytes, st, record).value;
      var tail := s.data[|record|..];
      NextPaginated(w, thread, limits, st, record, next);
      OrdinalsStep(w, s, limits, record, next.previous);
      ScanOrdinals(w, thread, limits, s.(data := tail), next);
      PrependIncreasing(next.previous, Ordinals(w, tail));
    }
  }

  /** A scan that has passed a record without becoming paginated never does. */
  lemma {:induction false} StaysUnpaginated(w: World, thread: string, limits: Limits, s: Stream, st: Scan)
    requires ScanAll(w, thread, limits, s, st).Ok?
    requires st.meta.mode != "paginated" && st.records > 0
    ensures ScanAll(w, thread, limits, s, st).value.meta.mode != "paginated"
    decreases |s.data|
  {
    hide ValidateMetadata;
    var record := NextRecord(s.data, s.clean, limits.recordBytes).value;
    if record != [] {
      var next := Admit(w, thread, limits.fileBytes, st, record).value;
      StaysUnpaginated(w, thread, limits, s.(data := s.data[|record|..]), next);
    }
  }

  /** The ordinals of an accepted paginated rollout increase strictly, from where its inherited history ends (or zero)
      to its last ordinal. */
  lemma PaginatedOrdinals(w: World, s: Stream, thread: string, end: Option<HistoryPosition>, limits: Limits)
    requires Summarize(w, s, thread, end, limits).Ok?
    requires Summarize(w, s, thread, end, limits).value.meta.mode == "paginated"
    ensures var sum, o := Summarize(w, s, thread, end, limits).value, Ordinals(w, Content(s, end));
            o != [] && Increasing(o) && o[0] == FirstOrdinal(sum.meta) && o[|o| - 1] == sum.lastOrdinal
  {
    hide Admit;
    var input := Limited(s, end);
    var record := NextRecord(input.data, input.clean, limits.recordBytes).value;
    assert record != [];
    var next := Admit(w, thread, limits.fileBytes, START, record).value;
    var tail := input.(data := input.data[|record|..]);
    AdmitCounts(w, thread, limits, START, record, next);
    if next.meta.mode != "paginated" {
      StaysUnpaginated(w, thread, limits, tail, next);
      assert false;
    }
    FirstRecordPaginated(w, thread, limits, input, record, next);
    ScanOrdinals(w, thread, limits, tail, next);
    OrdinalsStep(w, input, limits, record, next.previous);
    PrependIncreasing(next.previous, Ordinals(w, tail.data));
  }

  lemma AdmitCounts(w: World, thread: string, limits: Limits, st: Scan, record: Bytes, next: Scan)
    requires Admit(w, thread, limits.fileBytes, st, record) == Ok(next)
    ensures next.records == st.records + 1
  {
  }

  lemma FirstRecordPaginated(w: World, thread: string, limits: Limits, input: Stream, record: Bytes, next: Scan)
    requires NextRecord(input.data, input.clean, limits.recordBytes) == Ok(record) && record != []
    requires Admit(w, thread, limits.fileBytes, START, record) == Ok(next) && next.meta.mode == "paginated"
    ensures next.saw && next.records == 1 && next.previous == FirstOrdinal(next.meta)
    ensures w.parse(record).Some? && w.parse(record).value.ordinal == Some(next.previous)
  {
  }
}
