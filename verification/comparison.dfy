// What a successful check has established about every existing representation:
// internal/session/extend.go and checkConflicts of publish.go.

module Comparison {
  import opened Model
  import opened Format
  import opened Rollout
  import opened Cutoff
  import opened Inspect
  import opened Lineage
  import opened Conflicts
  import opened Steps

  /** A candidate for the i-th incoming rollout. */
  predicate For(inc: Incoming, i: nat, c: Candidate)
    requires i < |inc.files|
  {
    c.rollout == inc.files[i].rollout && c.thread == inc.files[i].thread
  }

  lemma WholeRead(w: World, node: Node, c: Candidate, limits: Limits)
    requires Read(w, node, c, None, limits, false).Ok?
    ensures var f, s := Read(w, node, c, None, limits, false).value, Visible(w, c.path, node);
            s.clean && f.bytes == |s.data| && f.sha == w.hash(s.data) && f.source == c.path && f.stored == node
  {
    hide Summarize, Decoded;
    SummaryCovers(w, Visible(w, c.path, node), c.thread, None, limits);
  }

  lemma CutoffRead(w: World, node: Node, c: Candidate, end: HistoryPosition, limits: Limits)
    requires Read(w, node, c, Some(end), limits, false).Ok?
    ensures var f, s := Read(w, node, c, Some(end), limits, false).value, Visible(w, c.path, node);
            f.bytes == end.endByte <= |s.data| && f.sha == w.hash(s.data[..end.endByte])
  {
    hide Summarize, Decoded;
    SummaryCovers(w, Visible(w, c.path, node), c.thread, Some(end), limits);
  }

  /** An accepted extension: a complete managed prefix whose bytes are a proper prefix of the incoming ones. */
  lemma GrowthFacts(w: World, limits: Limits, inc: Incoming, i: nat, node: Node, c: Candidate, existing: File)
    requires CollisionFree(w) && i < |inc.files| == |inc.payload| && !HasSuffix(inc.files[i].source, ".zst")
    requires |inc.payload[i]| == inc.files[i].bytes && existing.bytes < inc.files[i].bytes
    requires Read(w, node, c, None, limits, false) == Ok(existing)
    requires CompareGrowth(w, limits, inc, i, existing).Ok?
    ensures CompareGrowth(w, limits, inc, i, existing) == Ok((existing, true))
    ensures Visible(w, c.path, node).clean && Visible(w, c.path, node).data < inc.payload[i]
    ensures existing.source == c.path && existing.stored == node
  {
    hide Read, CollisionFree;
    WholeRead(w, node, c, limits);
    var f := inc.files[i];
    var cutoff := HistoryPosition(f.rollout, existing.lastOrdinal + 1, existing.bytes);
    var staged := Read(w, StagedNode(inc, i), StagedCandidate(f), Some(cutoff), limits, false);
    CutoffRead(w, StagedNode(inc, i), StagedCandidate(f), cutoff, limits);
    assert Visible(w, f.source, StagedNode(inc, i)) == Stream(inc.payload[i], true);
    SameHash(w, Visible(w, c.path, node).data, inc.payload[i][..existing.bytes]);
  }

  lemma SameHash(w: World, a: Bytes, b: Bytes)
    requires CollisionFree(w) && w.hash(a) == w.hash(b)
    ensures a == b
  {
  }

  lemma FirstRecordKept(d: Bytes, e: Bytes)
    requires d <= e && FirstNewline(d) < |d|
    ensures FirstNewline(e) == FirstNewline(d)
  {
    assert e[..FirstNewline(d)] == d[..FirstNewline(d)];
    FirstNewlineIs(e, FirstNewline(d));
  }

  /** A scan reads its first record, then the rest. */
  lemma ScanUnfolds(w: World, thread: string, limits: Limits, d: Bytes, st: Scan)
    requires d != [] && ScanAll(w, thread, limits, Stream(d, true), st).Ok?
    ensures FirstNewline(d) < |d|
    ensures var record := d[..FirstNewline(d) + 1];
            NextRecord(d, true, limits.recordBytes) == Ok(record) &&
              Admit(w, thread, limits.fileBytes, st, record).Ok? &&
            ScanAll(w, thread, limits, Stream(d, true), st) ==
            ScanAll(w, thread, limits, Stream(d[|record|..], true), Admit(w, thread, limits.fileBytes, st,
              record).value)
  {
    hide Admit, FirstNewline;
  }

  lemma WholeScan(w: World, d: Bytes, thread: string, limits: Limits)
    requires Summarize(w, Stream(d, true), thread, None, limits).Ok?
    ensures d != [] && ScanAll(w, thread, limits, Stream(d, true), START).Ok?
    ensures ScanAll(w, thread, limits, Stream(d, true), START).value.meta ==
            Summarize(w, Stream(d, true), thread, None, limits).value.meta
  {
    hide Admit, NextRecord;
    assert d == [] ==> ScanAll(w, thread, limits, Stream(d, true), START) == Ok(START) by {
      EmptyScan(w, thread, limits);
    }
  }

  lemma EmptyScan(w: World, thread: string, limits: Limits)
    ensures ScanAll(w, thread, limits, Stream([], true), START) == Ok(START)
  {
    hide Admit;
  }

  /** Of two readable rollouts that begin with the same record, one of them paginated, the metadata is the same. */
  lemma FirstRecordDecides(w: World, d: Bytes, thread: string, limits: Limits)
    requires Summarize(w, Stream(d, true), thread, None, limits).Ok?
    ensures d != [] && FirstNewline(d) < |d| && Admit(w, thread, limits.fileBytes, START, d[..FirstNewline(d) + 1]).Ok?
    ensures var first := Admit(w, thread, limits.fileBytes, START, d[..FirstNewline(d) + 1]).value;
            var meta := Summarize(w, Stream(d, true), thread, None, limits).value.meta;
            if first.meta.mode == "paginated" then meta == first.meta else meta.mode != "paginated"
  {
    hide Admit, FirstNewline, Summarize, ScanAll, NextRecord, Ordinals;
    WholeScan(w, d, thread, limits);
    ScanUnfolds(w, thread, limits, d, START);
    var record := d[..FirstNewline(d) + 1];
    var next := Admit(w, thread, limits.fileBytes, START, record).value;
    var tail := Stream(d[|record|..], true);
    AdmitCounts(w, thread, limits, START, record, next);
    if next.meta.mode == "paginated" {
      FirstRecordPaginated(w, thread, limits, Stream(d, true), record, next);
      ScanOrdinals(w, thread, limits, tail, next);
    } else {
      StaysUnpaginated(w, thread, limits, tail, next);
    }
  }

  /** A readable continuation of a paginated rollout has the same metadata. */
  lemma ContinuationMetadata(w: World, d: Bytes, e: Bytes, thread: string, limits: Limits)
    requires d <= e && Summarize(w, Stream(e, true), thread, None, limits).Ok?
    requires var r := Summarize(w, Stream(d, true), thread, None, limits); r.Ok? && r.value.meta.mode == "paginated"
    ensures Summarize(w, Stream(e, true), thread, None, limits).value.meta ==
            Summarize(w, Stream(d, true), thread, None, limits).value.meta
  {
    hide Admit, FirstNewline, Summarize;
    FirstRecordDecides(w, d, thread, limits);
    FirstRecordDecides(w, e, thread, limits);
    FirstRecordKept(d, e);
    assert e[..FirstNewline(e) + 1] == d[..FirstNewline(d) + 1];
  }

  /** What the check knows of a representation that must grow. */
  predicate Growing(w: World, inc: Incoming, i: nat, node: Node, c: Candidate, f: File)
    requires i < |inc.files| == |inc.payload|
  {
    PrerequisitePath(c.path) && f.source == c.path && f.stored == node &&
    Visible(w, c.path, node).clean && Visible(w, c.path, node).data < inc.payload[i]
  }

  /** What the check knows of a representation that already holds the incoming bytes. */
  predicate Sufficient(w: World, inc: Incoming, i: nat, node: Node, c: Candidate)
    requires i < |inc.files| == |inc.payload|
  {
    inc.payload[i] <= Visible(w, c.path, node).data &&
    (!inc.files[i].prefix ==> Visible(w, c.path, node) == Stream(inc.payload[i], true))
  }

  /** compareExisting either reports what it read at the cutoff or decides on growth. */
  lemma CompareCases(w: World, limits: Limits, inc: Incoming, i: nat, node: Node, c: Candidate)
    requires i < |inc.files| == |inc.payload| && Compare(w, limits, inc, i, node, c).Ok?
    requires inc.files[i].prefix == CutoffFor(inc, i).Some?
    ensures var (f, grow) := Compare(w, limits, inc, i, node, c).value;
            !grow ==> Read(w, node, c, CutoffFor(inc, i), limits, false) == Ok(f)
    ensures var (f, grow) := Compare(w, limits, inc, i, node, c).value;
            grow ==> PrerequisitePath(c.path) && Read(w, node, c, None, limits, false).Ok? &&
                     var whole := Read(w, node, c, None, limits, false).value;
                     whole.bytes < inc.files[i].bytes && CompareGrowth(w, limits, inc, i, whole) == Ok((f, true))
  {
    hide Read, PrerequisitePath;
  }

  lemma EnoughRead(w: World, limits: Limits, inc: Incoming, i: nat, node: Node, c: Candidate, f: File)
    requires CollisionFree(w) && i < |inc.files| == |inc.payload|
    requires inc.files[i].sha == w.hash(inc.payload[i])
    requires inc.files[i].prefix == CutoffFor(inc, i).Some?
    requires Read(w, node, c, CutoffFor(inc, i), limits, false) == Ok(f) && SameBytes(inc.files[i], f)
    ensures Sufficient(w, inc, i, node, c)
  {
    hide Read, CollisionFree, Decoded;
    if inc.files[i].prefix {
      var end := CutoffFor(inc, i).value;
      CutoffRead(w, node, c, end, limits);
      SameHash(w, Visible(w, c.path, node).data[..end.endByte], inc.payload[i]);
    } else {
      WholeRead(w, node, c, limits);
      SameHash(w, Visible(w, c.path, node).data, inc.payload[i]);
    }
  }

  /** Either the file must grow, and then it is a proper prefix of the incoming bytes; or it already holds what the
      incoming lineage needs of it. */
  lemma CompareFacts(w: World, limits: Limits, inc: Incoming, i: nat, node: Node, c: Candidate)
    requires CollisionFree(w) && ValidIncoming(w, limits, inc) && i < |inc.files|
    requires Compare(w, limits, inc, i, node, c).Ok?
    ensures |inc.files| == |inc.payload|
    ensures var (f, grow) := Compare(w, limits, inc, i, node, c).value;
            if grow then Growing(w, inc, i, node, c, f)
            else
              Read(w, node, c, CutoffFor(inc, i), limits, false) == Ok(f) &&
              (SameBytes(inc.files[i], f) ==> Sufficient(w, inc, i, node, c))
  {
    hide Read, Describes, CollisionFree, PrerequisitePath, CompareGrowth, ValidIncoming, Decoded, Compare, CutoffFor,
         Sufficient, SameBytes;
    ValidAt(w, limits, inc, i);
    CutoffOf(w, limits, inc, i);
    CompareCases(w, limits, inc, i, node, c);
    var (f, grow) := Compare(w, limits, inc, i, node, c).value;
    if grow {
      GrowthFacts(w, limits, inc, i, node, c, Read(w, node, c, None, limits, false).value);
    } else if SameBytes(inc.files[i], f) {
      EnoughRead(w, limits, inc, i, node, c, f);
    }
  }

  lemma SummarySettled(w: World, limits: Limits, f: File, content: Bytes, thread: string, end: Option<HistoryPosition>)
    requires Describes(w, limits, f, content) && |content| == f.bytes && 0 < f.bytes <= limits.fileBytes &&
             thread == f.thread
    requires end.Some? ==> EndsAt(end.value, f) && f.meta.mode == "paginated" && f.lastOrdinal < MAX_U64
    ensures Summarize(w, Stream(content, true), thread, end, limits) == Ok(SummaryOf(f))
  {
    hide Summarize;
    if end.Some? {
      WholeIsCutoff(w, content, Stream(content, true), thread, end.value, limits);
    }
  }

  lemma CutoffOf(w: World, limits: Limits, inc: Incoming, i: nat)
    requires ValidIncoming(w, limits, inc) && i < |inc.files|
    ensures var f, end := inc.files[i], CutoffFor(inc, i);
            end.Some? == f.prefix &&
            (end.Some? ==> EndsAt(end.value, f) && f.meta.mode == "paginated" && f.lastOrdinal < MAX_U64)
  {
    hide ValidFile, Joined, Distinct;
    PrefixUnlessLast(w, limits, inc, i);
  }

  lemma ReadSettled(w: World, limits: Limits, inc: Incoming, i: nat, node: Node, c: Candidate)
    requires ValidIncoming(w, limits, inc) && i < |inc.files| && For(inc, i, c)
    requires Visible(w, c.path, node) == Stream(inc.payload[i], true)
    ensures var r := Read(w, node, c, CutoffFor(inc, i), limits, false);
            r.Ok? && SameBytes(inc.files[i], r.value) && SameHistory(inc.files[i], r.value)
  {
    hide Summarize, PrerequisitePath, ValidIncoming, Decoded, Describes, CutoffFor;
    ValidAt(w, limits, inc, i);
    CutoffOf(w, limits, inc, i);
    SummarySettled(w, limits, inc.files[i], inc.payload[i], c.thread, CutoffFor(inc, i));
  }

  lemma ValidAt(w: World, limits: Limits, inc: Incoming, i: nat)
    requires ValidIncoming(w, limits, inc) && i < |inc.files|
    ensures |inc.files| == |inc.payload| && ValidFile(w, limits, inc.files[i], inc.payload[i])
  {
    hide ValidFile;
  }

  /** A representation holding exactly the incoming bytes needs nothing more. */
  lemma CompareSettled(w: World, limits: Limits, inc: Incoming, i: nat, node: Node, c: Candidate)
    requires ValidIncoming(w, limits, inc) && i < |inc.files| && For(inc, i, c)
    requires Visible(w, c.path, node) == Stream(inc.payload[i], true)
    ensures var r := Compare(w, limits, inc, i, node, c);
            r.Ok? && !r.value.1 && SameBytes(inc.files[i], r.value.0) &&
            Read(w, node, c, CutoffFor(inc, i), limits, false) == Ok(r.value.0)
  {
    hide Read, PrerequisitePath, CompareGrowth, ValidIncoming, SameHistory;
    ReadSettled(w, limits, inc, i, node, c);
  }

  /** What is read of a stream is decided by its summary. */
  lemma ReadSummary(w: World, limits: Limits, f: File, node: Node, c: Candidate, end: Option<HistoryPosition>)
    requires c.rollout == f.rollout && c.thread == f.thread && end.Some? == f.prefix
    requires Summarize(w, Visible(w, c.path, node), c.thread, end, limits) == Ok(SummaryOf(f))
    ensures var r := Read(w, node, c, end, limits, false); r.Ok? && SameHistory(f, r.value)
  {
    hide Summarize, Decoded;
  }

  /** An inherited prefix is read at its cutoff, whatever follows. */
  lemma PrefixSummary(w: World, limits: Limits, f: File, content: Bytes, v: Stream, end: HistoryPosition)
    requires Describes(w, limits, f, content) && |content| == f.bytes && 0 < f.bytes <= limits.fileBytes
    requires EndsAt(end, f) && f.meta.mode == "paginated" && f.lastOrdinal < MAX_U64 && content <= v.data
    ensures Summarize(w, v, f.thread, Some(end), limits) == Ok(SummaryOf(f))
  {
    hide Summarize;
    WholeIsCutoff(w, content, v, f.thread, end, limits);
  }

  /** A representation that holds what the incoming lineage needs of it is read as the incoming file. */
  lemma ReadSufficient(w: World, limits: Limits, inc: Incoming, i: nat, node: Node, c: Candidate)
    requires ValidIncoming(w, limits, inc) && i < |inc.files| == |inc.payload| && For(inc, i, c)
    requires Sufficient(w, inc, i, node, c)
    ensures var r := Read(w, node, c, CutoffFor(inc, i), limits, false); r.Ok? && SameHistory(inc.files[i], r.value)
  {
    hide Summarize, ValidIncoming, Visible, Read, SameHistory, Describes, CutoffFor, ParseName, HasSuffix;
    ValidAt(w, limits, inc, i);
    CutoffOf(w, limits, inc, i);
    var end, f := CutoffFor(inc, i), inc.files[i];
    if end.Some? {
      PrefixSummary(w, limits, f, inc.payload[i], Visible(w, c.path, node), end.value);
    } else {
      SummarySettled(w, limits, f, inc.payload[i], c.thread, end);
    }
    ReadSummary(w, limits, f, node, c, end);
  }

  // ---- what compareExisting decides, by content ----

  /** A managed prefix that can grow: a complete readable paginated rollout whose bytes the incoming ones continue. */
  predicate Continuable(w: World, limits: Limits, inc: Incoming, i: nat, node: Node, c: Candidate)
    requires i < |inc.files| == |inc.payload|
  {
    PrerequisitePath(c.path) && Visible(w, c.path, node).clean && Visible(w, c.path, node).data < inc.payload[i] &&
    var whole := Read(w, node, c, None, limits, false);
    whole.Ok? && whole.value.meta.mode == "paginated" && whole.value.lastOrdinal < MAX_U64
  }

  lemma PlainStage(w: World, path: string, node: Node)
    requires !HasSuffix(path, ".zst")
    ensures Visible(w, path, node) == Stream(node.raw, true)
  {
  }

  /** The incoming bytes, cut where a prefix of them ends, are that prefix. */
  lemma GrowthAccepted(w: World, limits: Limits, inc: Incoming, i: nat, node: Node, c: Candidate)
    requires ValidIncoming(w, limits, inc) && i < |inc.files| == |inc.payload| && For(inc, i, c)
    requires Continuable(w, limits, inc, i, node, c)
    ensures var whole := Read(w, node, c, None, limits, false).value;
            CompareGrowth(w, limits, inc, i, whole) == Ok((whole, true)) && whole.bytes < inc.files[i].bytes
  {
    hide Summarize, ValidIncoming, Describes, ParseName, HasSuffix, ManagedPath, PrerequisitePath, Decoded;
    ValidAt(w, limits, inc, i);
    WholeRead(w, node, c, limits);
    var f, v, whole := inc.files[i], Visible(w, c.path, node), Read(w, node, c, None, limits, false).value;
    var cutoff := HistoryPosition(f.rollout, whole.lastOrdinal + 1, whole.bytes);
    SummaryBounds(w, v, c.thread, None, limits);
    assert v == Stream(v.data, true);
    WholeIsCutoff(w, v.data, Stream(inc.payload[i], true), c.thread, cutoff, limits);
    PlainStage(w, f.source, StagedNode(inc, i));
  }

  /** compareExisting accepts a stored representation as it is exactly when it already holds what the incoming lineage
      needs of it, and asks for growth exactly when it is a readable managed prefix the incoming bytes continue;
      everything else is a conflict. */
  lemma CompareExactly(w: World, limits: Limits, inc: Incoming, i: nat, node: Node, c: Candidate)
    requires CollisionFree(w) && ValidIncoming(w, limits, inc) && i < |inc.files| == |inc.payload| && For(inc, i, c)
    ensures var r := Compare(w, limits, inc, i, node, c);
            (r.Ok? && !r.value.1 && SameBytes(inc.files[i], r.value.0) <==> Sufficient(w, inc, i, node, c)) &&
            (r.Ok? && r.value.1 <==> Continuable(w, limits, inc, i, node, c))
  {
    hide ValidIncoming, Read, Describes, Decoded, PrerequisitePath, Compare, CollisionFree, Sufficient, Continuable;
    hide SameBytes, CutoffFor;
    ValidAt(w, limits, inc, i);
    var r := Compare(w, limits, inc, i, node, c);
    if r.Ok? {
      CompareFacts(w, limits, inc, i, node, c);
      if r.value.1 {
        GrowthMeans(w, limits, inc, i, node, c);
      }
    }
    if Sufficient(w, inc, i, node, c) {
      ReadSufficient(w, limits, inc, i, node, c);
      SufficientTaken(w, limits, inc, i, node, c);
    }
    if Continuable(w, limits, inc, i, node, c) {
      GrowthTaken(w, limits, inc, i, node, c);
    }
  }

  lemma GrowthMeans(w: World, limits: Limits, inc: Incoming, i: nat, node: Node, c: Candidate)
    requires CollisionFree(w) && ValidIncoming(w, limits, inc) && i < |inc.files| == |inc.payload|
    requires Compare(w, limits, inc, i, node, c).Ok? && Compare(w, limits, inc, i, node, c).value.1
    ensures Continuable(w, limits, inc, i, node, c)
  {
    hide ValidIncoming, Read, Decoded, PrerequisitePath, Compare, CollisionFree, ValidFile, CutoffFor;
    ValidAt(w, limits, inc, i);
    CutoffOf(w, limits, inc, i);
    CompareFacts(w, limits, inc, i, node, c);
    CompareCases(w, limits, inc, i, node, c);
  }

  lemma SufficientTaken(w: World, limits: Limits, inc: Incoming, i: nat, node: Node, c: Candidate)
    requires ValidIncoming(w, limits, inc) && i < |inc.files| == |inc.payload| && Sufficient(w, inc, i, node, c)
    requires var r := Read(w, node, c, CutoffFor(inc, i), limits, false); r.Ok? && SameHistory(inc.files[i], r.value)
    ensures Compare(w, limits, inc, i, node, c) == Ok((Read(w, node, c, CutoffFor(inc, i), limits, false).value, false))
    ensures SameBytes(inc.files[i], Read(w, node, c, CutoffFor(inc, i), limits, false).value)
  {
    hide ValidIncoming, Read, Decoded, PrerequisitePath, CompareGrowth, ValidFile, CutoffFor;
    ValidAt(w, limits, inc, i);
  }

  lemma GrowthTaken(w: World, limits: Limits, inc: Incoming, i: nat, node: Node, c: Candidate)
    requires ValidIncoming(w, limits, inc) && i < |inc.files| == |inc.payload| && For(inc, i, c)
    requires Continuable(w, limits, inc, i, node, c)
    ensures var r := Compare(w, limits, inc, i, node, c); r.Ok? && r.value.1
  {
    hide ValidIncoming, Read, ValidFile, Visible, PrerequisitePath, CompareGrowth, CutoffFor;
    CutoffOf(w, limits, inc, i);
    if inc.files[i].prefix {
      TooShort(w, limits, inc, i, node, c);
    }
    GrowthAccepted(w, limits, inc, i, node, c);
  }

  /** No cutoff of the incoming lineage lies within a proper prefix of its file. */
  lemma TooShort(w: World, limits: Limits, inc: Incoming, i: nat, node: Node, c: Candidate)
    requires ValidIncoming(w, limits, inc) && i < |inc.files| == |inc.payload|
    requires Continuable(w, limits, inc, i, node, c) && inc.files[i].prefix
    ensures CutoffFor(inc, i).Some? && Read(w, node, c, CutoffFor(inc, i), limits, false).Err?
  {
    hide ValidIncoming, Read, Describes, Decoded, PrerequisitePath, CutoffFor, ParseName;
    ValidAt(w, limits, inc, i);
    CutoffOf(w, limits, inc, i);
    var end := CutoffFor(inc, i);
    if Read(w, node, c, end, limits, false).Ok? {
      CutoffRead(w, node, c, end.value, limits);
    }
  }

  // ---- the candidate loop ----

  predicate Fits(t: Target, inc: Incoming, i: nat, c: Candidate)
    requires i < |inc.files| == |inc.payload|
  {
    c.thread == inc.files[i].thread && c.path in t.tree &&
    var cmp := Compare(t.w, t.limits, inc, i, t.tree[c.path], c);
    cmp.Ok? && (cmp.value.1 || SameBytes(inc.files[i], cmp.value.0))
  }

  predicate MustGrow(t: Target, inc: Incoming, i: nat, c: Candidate)
    requires i < |inc.files| == |inc.payload|
  {
    c.rollout == inc.files[i].rollout && Fits(t, inc, i, c) &&
    Compare(t.w, t.limits, inc, i, t.tree[c.path], c).value.1
  }

  function Extensions(t: Target, inc: Incoming, i: nat, cs: seq<Candidate>): seq<File>
    requires i < |inc.files| == |inc.payload|
    decreases |cs|
  {
    if cs == [] then []
    else
      (if MustGrow(t, inc, i, cs[0]) then [Compare(t.w, t.limits, inc, i, t.tree[cs[0].path], cs[0]).value.0] else []) +
      Extensions(t, inc, i, cs[1..])
  }

  /** A candidate under which the rollout counts as present: not the managed prefix of a complete conversation. */
  predicate Usable(inc: Incoming, i: nat, c: Candidate)
    requires i < |inc.files|
  {
    c.rollout == inc.files[i].rollout && (inc.files[i].prefix || !PrerequisitePath(c.path))
  }

  predicate AllOf(t: Target, inc: Incoming, i: nat, cs: seq<Candidate>)
    requires i < |inc.files| == |inc.payload|
  {
    forall c | c in cs && c.rollout == inc.files[i].rollout :: Fits(t, inc, i, c)
  }

  /** The inner loop accepts exactly when every representation fits, and collects what must grow. */
  lemma {:induction false} WeighAllFacts(t: Target, inc: Incoming, i: nat, ch: Choice, cs: seq<Candidate>)
    requires i < |inc.files| == |inc.payload|
    ensures var r := WeighAll(t, inc, i, ch, cs);
            r.Ok? <==> AllOf(t, inc, i, cs)
    ensures var r := WeighAll(t, inc, i, ch, cs);
            r.Ok? ==>
              r.value.extensions == ch.extensions + Extensions(t, inc, i, cs) && r.value.repair == ch.repair &&
              (r.value.present <==> ch.present || exists c | c in cs :: Usable(inc, i, c)) &&
              (!r.value.present ==> r.value.path == ch.path) &&
              (r.value.promoted <==>
                 ch.promoted ||
                 exists c | c in cs :: c.rollout == inc.files[i].rollout && !inc.files[i].prefix &&
                   PrerequisitePath(c.path))
    decreases |cs|
  {
    hide Compare, PrerequisitePath, TrimSuffix;
    if cs == [] {
      assert ch.extensions + [] == ch.extensions;
    } else {
      assert forall c :: c in cs <==> c == cs[0] || c in cs[1..];
      if cs[0].rollout != inc.files[i].rollout {
        WeighAllFacts(t, inc, i, ch, cs[1..]);
      } else {
        var r := Weigh(t, inc, i, ch, cs[0]);
        WeighFacts(t, inc, i, ch, cs[0]);
        if r.Ok? {
          WeighAllFacts(t, inc, i, r.value, cs[1..]);
        }
      }
    }
  }

  /** The path chosen for a present rollout is that of a usable representation. */
  lemma {:induction false} ChosenPath(t: Target, inc: Incoming, i: nat, ch: Choice, cs: seq<Candidate>)
    requires i < |inc.files| == |inc.payload| && WeighAll(t, inc, i, ch, cs).Ok?
    ensures var r := WeighAll(t, inc, i, ch, cs).value;
            r.present ==> (ch.present && r.path == ch.path) || exists c | c in cs ::
                Usable(inc, i, c) && c.path == r.path
    decreases |cs|
  {
    hide Compare, PrerequisitePath, TrimSuffix;
    if cs != [] {
      assert forall c :: c in cs <==> c == cs[0] || c in cs[1..];
      if cs[0].rollout != inc.files[i].rollout {
        ChosenPath(t, inc, i, ch, cs[1..]);
      } else {
        ChosenPath(t, inc, i, Weigh(t, inc, i, ch, cs[0]).value, cs[1..]);
      }
    }
  }

  predicate SelectedForm(t: Target, path: string) {
    t.sel.Some? && TrimSuffix(path, ".zst") == TrimSuffix(t.sel.value.path, ".zst")
  }

  /** Which of several representations is reported: an ordinary one rather than a managed prerequisite, and the selected
      one rather than any other. */
  lemma {:induction false} PreferredPath(t: Target, inc: Incoming, i: nat, ch: Choice, cs: seq<Candidate>)
    requires i < |inc.files| == |inc.payload| && WeighAll(t, inc, i, ch, cs).Ok?
    requires forall c | c in cs && SelectedForm(t, c.path) :: !PrerequisitePath(c.path)
    requires ch.present && SelectedForm(t, ch.path) ==> !PrerequisitePath(ch.path)
    ensures var r := WeighAll(t, inc, i, ch, cs).value;
            (ch.present && !PrerequisitePath(ch.path)) ||
            (exists c | c in cs :: Usable(inc, i, c) && !PrerequisitePath(c.path))
            ==> r.present && !PrerequisitePath(r.path)
    ensures var r := WeighAll(t, inc, i, ch, cs).value;
            (ch.present && SelectedForm(t, ch.path)) ||
            (exists c | c in cs :: Usable(inc, i, c) && SelectedForm(t, c.path))
            ==> r.present && SelectedForm(t, r.path)
    decreases |cs|
  {
    hide Compare, PrerequisitePath, TrimSuffix;
    if cs != [] {
      assert forall c :: c in cs <==> c == cs[0] || c in cs[1..];
      if cs[0].rollout != inc.files[i].rollout {
        PreferredPath(t, inc, i, ch, cs[1..]);
      } else {
        PreferredStep(t, inc, i, ch, cs[0]);
        PreferredPath(t, inc, i, Weigh(t, inc, i, ch, cs[0]).value, cs[1..]);
      }
    }
  }

  lemma PreferredStep(t: Target, inc: Incoming, i: nat, ch: Choice, c: Candidate)
    requires i < |inc.files| == |inc.payload| && c.rollout == inc.files[i].rollout && Weigh(t, inc, i, ch, c).Ok?
    requires SelectedForm(t, c.path) ==> !PrerequisitePath(c.path)
    requires ch.present && SelectedForm(t, ch.path) ==> !PrerequisitePath(ch.path)
    ensures var r := Weigh(t, inc, i, ch, c).value;
            (r.present && SelectedForm(t, r.path) ==> !PrerequisitePath(r.path)) &&
            ((ch.present && !PrerequisitePath(ch.path)) || (Usable(inc, i, c) && !PrerequisitePath(c.path))
             ==> r.present && !PrerequisitePath(r.path)) &&
            ((ch.present && SelectedForm(t, ch.path)) || (Usable(inc, i, c) && SelectedForm(t, c.path))
             ==> r.present && SelectedForm(t, r.path))
  {
    hide Compare, PrerequisitePath, TrimSuffix;
  }

  lemma WeighFacts(t: Target, inc: Incoming, i: nat, ch: Choice, c: Candidate)
    requires i < |inc.files| == |inc.payload| && c.rollout == inc.files[i].rollout
    ensures var r := Weigh(t, inc, i, ch, c);
            (r.Ok? <==> Fits(t, inc, i, c)) &&
            (r.Ok? ==>
               r.value.extensions == ch.extensions + (if MustGrow(t, inc, i, c)
                 then [Compare(t.w, t.limits, inc, i, t.tree[c.path], c).value.0] else []) &&
               r.value.repair == ch.repair && (r.value.present <==> ch.present || Usable(inc, i, c)) &&
               (!r.value.present ==> r.value.path == ch.path) &&
               (r.value.promoted <==> ch.promoted || (!inc.files[i].prefix && PrerequisitePath(c.path))))
  {
    hide Compare, PrerequisitePath, TrimSuffix;
  }

  lemma {:induction false} ExtensionsAre(t: Target, inc: Incoming, i: nat, cs: seq<Candidate>)
    requires i < |inc.files| == |inc.payload|
    ensures forall f | f in Extensions(t, inc, i, cs) ::
              exists c | c in cs :: MustGrow(t, inc, i, c) &&
                f == Compare(t.w, t.limits, inc, i, t.tree[c.path], c).value.0
    ensures forall c | c in cs && MustGrow(t, inc, i, c) ::
              Compare(t.w, t.limits, inc, i, t.tree[c.path], c).value.0 in Extensions(t, inc, i, cs)
    decreases |cs|
  {
    hide MustGrow, Compare;
    if cs != [] {
      ExtensionsAre(t, inc, i, cs[1..]);
      assert forall c :: c in cs <==> c == cs[0] || c in cs[1..];
    }
  }

  // ---- the whole check ----

  /** The check accepts exactly when the selection is admissible, the thread has no rival, and every representation
      of every incoming rollout fits. */
  predicate AllFit(t: Target, inc: Incoming, a: Admission, from: nat)
    requires |inc.files| == |inc.payload|
  {
    forall i | from <= i < |inc.files| :: AllOf(t, inc, i, a.inv)
  }

  lemma {:induction false} ChooseFromFacts(t: Target, inc: Incoming, a: Admission, from: nat)
    requires from <= |inc.files| == |inc.payload|
    ensures ChooseFrom(t, inc, a, from).Ok? <==> AllFit(t, inc, a, from)
    ensures ChooseFrom(t, inc, a, from).Ok? ==>
              var r := ChooseFrom(t, inc, a, from).value;
              |r| == |inc.files| - from &&
              forall i | from <= i < |inc.files| ::
                WeighAll(t, inc, i, FreshChoice(inc, i, a.repair), a.inv) == Ok(r[i - from])
    decreases |inc.files| - from
  {
    hide AllOf, WeighAll, Extensions, Usable;
    if from < |inc.files| {
      WeighAllFacts(t, inc, from, FreshChoice(inc, from, a.repair), a.inv);
      ChooseFromFacts(t, inc, a, from + 1);
    }
  }

  lemma CheckAccepts(t: Target, inc: Incoming)
    requires 1 <= |inc.files| == |inc.payload|
    ensures Check(t, inc).Ok? <==>
            AdmitSelection(t, inc).Ok? && Unrivalled(t, inc, AdmitSelection(t, inc).value) &&
            AllFit(t, inc, AdmitSelection(t, inc).value, 0)
  {
    hide AdmitSelection, Unrivalled, AllFit, ChooseFrom;
    if AdmitSelection(t, inc).Ok? {
      ChooseFromFacts(t, inc, AdmitSelection(t, inc).value, 0);
    }
  }

  /** A stored representation that publication can work with. */
  predicate Workable(t: Target, inc: Incoming, i: nat, c: Candidate)
    requires i < |inc.files| == |inc.payload|
  {
    c.thread == inc.files[i].thread && c.path in t.tree &&
    (Sufficient(t.w, inc, i, t.tree[c.path], c) || Continuable(t.w, t.limits, inc, i, t.tree[c.path], c))
  }

  lemma FitsExactly(t: Target, inc: Incoming, i: nat, c: Candidate)
    requires CollisionFree(t.w) && ValidIncoming(t.w, t.limits, inc) && i < |inc.files| == |inc.payload|
    requires c.rollout == inc.files[i].rollout
    ensures Fits(t, inc, i, c) <==> Workable(t, inc, i, c)
  {
    hide ValidIncoming, CollisionFree, Compare, Sufficient, Continuable;
    if c.thread == inc.files[i].thread && c.path in t.tree {
      CompareExactly(t.w, t.limits, inc, i, t.tree[c.path], c);
    }
  }

  /** Every stored representation of every incoming rollout can be worked with. */
  predicate AllWorkable(t: Target, inc: Incoming, a: Admission)
    requires |inc.files| == |inc.payload|
  {
    forall i, c: Candidate | 0 <= i < |inc.files| && c in a.inv && c.rollout == inc.files[i].rollout ::
      Workable(t, inc, i, c)
  }

  lemma AllFitExactly(t: Target, inc: Incoming, a: Admission)
    requires CollisionFree(t.w) && ValidIncoming(t.w, t.limits, inc) && 1 <= |inc.files| == |inc.payload|
    ensures AllFit(t, inc, a, 0) <==> AllWorkable(t, inc, a)
  {
    hide ValidIncoming, CollisionFree, Fits, Workable;
    forall i, c: Candidate | 0 <= i < |inc.files| && c.rollout == inc.files[i].rollout
      ensures Fits(t, inc, i, c) <==> Workable(t, inc, i, c)
    {
      FitsExactly(t, inc, i, c);
    }
    if AllWorkable(t, inc, a) {
      forall i, c | 0 <= i < |inc.files| && c in a.inv && c.rollout == inc.files[i].rollout
        ensures Fits(t, inc, i, c)
      {
        assert Workable(t, inc, i, c);
      }
    }
    if AllFit(t, inc, a, 0) {
      forall i, c: Candidate | 0 <= i < |inc.files| && c in a.inv && c.rollout == inc.files[i].rollout
        ensures Workable(t, inc, i, c)
      {
        assert AllOf(t, inc, i, a.inv);
        assert Fits(t, inc, i, c);
      }
    }
  }

  /** What checkConflicts accepts, by content alone: the row is admissible, the thread has no rival, and every stored
      representation of every incoming rollout belongs to its thread and either holds what the lineage needs or is a
      managed prefix that the incoming bytes continue. */
  lemma CheckExactly(t: Target, inc: Incoming)
    requires CollisionFree(t.w) && ValidIncoming(t.w, t.limits, inc) && 1 <= |inc.files| == |inc.payload|
    ensures Check(t, inc).Ok? <==>
            AdmitSelection(t, inc).Ok? && Unrivalled(t, inc, AdmitSelection(t, inc).value) &&
            AllWorkable(t, inc, AdmitSelection(t, inc).value)
  {
    hide ValidIncoming, CollisionFree, AdmitSelection, Unrivalled, Check, AllFit, AllWorkable;
    CheckAccepts(t, inc);
    if AdmitSelection(t, inc).Ok? {
      AllFitExactly(t, inc, AdmitSelection(t, inc).value);
    }
  }
}
