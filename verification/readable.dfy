// Which files are rollouts, record by record, and where one may be cut: internal/session/rollout.go.

module Readable {
  import opened Model
  import opened Format
  import opened Rollout
  import opened Cutoff

  // ---- a rollout as a list of records ----

  /** A newline-terminated record. */
  predicate IsLine(r: Bytes) {
    r != [] && r[|r| - 1] == NEWLINE && NEWLINE !in r[..|r| - 1]
  }

  function Flat(rs: seq<Bytes>): Bytes {
    if rs == [] then [] else Flat(rs[..|rs| - 1]) + rs[|rs| - 1]
  }

  /** JSON with a type and a payload. */
  predicate Typed(w: World, r: Bytes) {
    w.parse(r).Some? && w.parse(r).value.kind != "" && w.parse(r).value.hasPayload
  }

  predicate IsMeta(w: World, r: Bytes) {
    w.parse(r).Some? && w.parse(r).value.kind == "session_meta"
  }

  /** The first metadata record, or the number of records. */
  function MetaAt(w: World, rs: seq<Bytes>): (m: nat)
    ensures m <= |rs| && (m < |rs| ==> IsMeta(w, rs[m])) && forall i | 0 <= i < m :: !IsMeta(w, rs[i])
  {
    if rs == [] then 0
    else
      var m := MetaAt(w, rs[..|rs| - 1]);
      if m < |rs| - 1 || IsMeta(w, rs[|rs| - 1]) then m else |rs|
  }

  /** Session metadata of the thread: a legacy or paginated conversation, the latter perhaps with inherited history. */
  predicate GoodMeta(m: Metadata, thread: string) {
    ParseID(m.thread) == Some(thread) && m.mode in {"", "legacy", "paginated"} &&
    (m.base.Some? ==>
       var b := m.base.value;
       m.mode == "paginated" && ParseID(b.rollout).Some? && 0 < b.endOrdinal < MAX_U64 && b.endByte > 0)
  }

  /** The same with identities in lower case and no mode left empty. */
  function Normal(m: Metadata, thread: string): Metadata
    requires GoodMeta(m, thread)
  {
    m.(thread := thread, mode := if m.mode == "paginated" then "paginated" else "legacy",
       base := if m.base.None? then None
               else Some(m.base.value.(rollout := ParseID(m.base.value.rollout).value)))
  }

  function OrdinalOf(w: World, r: Bytes): Option<u64>
    requires Typed(w, r)
  {
    w.parse(r).value.ordinal
  }

  /** A paginated rollout begins with its only metadata, and its ordinals increase from where its history begins. */
  predicate Paginated(w: World, rs: seq<Bytes>, first: u64)
    requires forall r | r in rs :: Typed(w, r)
  {
    rs != [] && IsMeta(w, rs[0]) && (forall i | 0 < i < |rs| :: !IsMeta(w, rs[i])) &&
    (forall i | 0 <= i < |rs| :: OrdinalOf(w, rs[i]).Some?) && OrdinalOf(w, rs[0]) == Some(first) &&
    forall i, j | 0 <= i < j < |rs| :: OrdinalOf(w, rs[i]).value < OrdinalOf(w, rs[j]).value
  }

  function FirstOf(m: Metadata): u64 {
    if m.base.Some? then m.base.value.endOrdinal else 0
  }

  /** The metadata record, once there is one, is good for the thread; in legacy mode nothing more is asked. */
  predicate GoodRecords(w: World, thread: string, rs: seq<Bytes>) {
    (forall r | r in rs :: Typed(w, r)) &&
    var m := MetaAt(w, rs);
    m < |rs| ==>
      var meta := w.parse(rs[m]).value.meta;
      meta.Some? && GoodMeta(meta.value, thread) &&
      (meta.value.mode == "paginated" ==> Paginated(w, rs, FirstOf(meta.value)))
  }

  /** A whole rollout of the thread, within the limits. */
  predicate IsRollout(w: World, thread: string, limits: Limits, rs: seq<Bytes>) {
    GoodRecords(w, thread, rs) && MetaAt(w, rs) < |rs| && |Flat(rs)| <= limits.fileBytes &&
    forall r | r in rs :: |r| <= limits.recordBytes
  }

  /** What reading it establishes. */
  function SummaryOf(w: World, thread: string, rs: seq<Bytes>): Summary
    requires GoodRecords(w, thread, rs) && MetaAt(w, rs) < |rs|
  {
    var meta := Normal(w.parse(rs[MetaAt(w, rs)]).value.meta.value, thread);
    Summary(|Flat(rs)|, w.hash(Flat(rs)), meta,
            if meta.mode == "paginated" then OrdinalOf(w, rs[|rs| - 1]).value else 0)
  }

  // ---- the reader's loop over such a list ----

  function ScanList(w: World, thread: string, fileBytes: int, rs: seq<Bytes>): Result<Scan> {
    if rs == [] then Ok(START)
    else
      var st :- ScanList(w, thread, fileBytes, rs[..|rs| - 1]);
      Admit(w, thread, fileBytes, st, rs[|rs| - 1])
  }

  lemma NextIsLine(r: Bytes, rest: Bytes, clean: bool, max: int)
    requires IsLine(r)
    ensures NextRecord(r + rest, clean, max) == if |r| <= max then Ok(r) else Err(RecordTooLong)
  {
    var d := r + rest;
    assert d[..|r| - 1] == r[..|r| - 1] && d[..|r|] == r;
    FirstNewlineIs(d, |r| - 1);
  }

  /** Reading the lines and then the rest. */
  lemma {:induction false} ScanLines(w: World, thread: string, limits: Limits, rs: seq<Bytes>, rest: Bytes, clean: bool)
    requires forall r | r in rs :: IsLine(r) && |r| <= limits.recordBytes
    ensures ScanAll(w, thread, limits, Stream(Flat(rs) + rest, clean), START) ==
            var st := ScanList(w, thread, limits.fileBytes, rs);
            if st.Err? then Err(st.error) else ScanAll(w, thread, limits, Stream(rest, clean), st.value)
  {
    hide Admit, IsLine, NextRecord;
    if rs == [] {
      assert Flat(rs) + rest == rest;
    } else {
      var init, last := rs[..|rs| - 1], rs[|rs| - 1];
      assert forall r | r in init :: r in rs;
      assert Flat(rs) + rest == Flat(init) + (last + rest);
      ScanLines(w, thread, limits, init, last + rest, clean);
      NextIsLine(last, rest, clean, limits.recordBytes);
      LineNotEmpty(last);
      assert (last + rest)[|last|..] == rest;
    }
  }

  lemma LineNotEmpty(r: Bytes)
    requires IsLine(r)
    ensures r != []
  {
  }

  /** The metadata the loop validates, and what it makes of them. */
  lemma ValidateExactly(m: Metadata, thread: string)
    ensures ValidateMetadata(m, thread).Ok? <==> GoodMeta(m, thread)
    ensures GoodMeta(m, thread) ==> ValidateMetadata(m, thread) == Ok(Normal(m, thread))
  {
    hide ParseID;
  }

  /** The state after some records of a rollout. */
  function StateOf(w: World, thread: string, rs: seq<Bytes>): Scan
    requires GoodRecords(w, thread, rs)
  {
    var m := MetaAt(w, rs);
    if m == |rs| then Scan(START.meta, false, 0, |rs|, |Flat(rs)|)
    else
      var sum := SummaryOf(w, thread, rs);
      Scan(sum.meta, true, sum.lastOrdinal, |rs|, sum.bytes)
  }

  lemma AdmitUntyped(w: World, thread: string, fileBytes: int, st: Scan, r: Bytes)
    requires !Typed(w, r)
    ensures Admit(w, thread, fileBytes, st, r).Err?
  {
  }

  lemma {:induction false} ListExactly(w: World, thread: string, fileBytes: nat, rs: seq<Bytes>)
    ensures ScanList(w, thread, fileBytes, rs).Ok? <==> GoodRecords(w, thread, rs) && |Flat(rs)| <= fileBytes
    ensures ScanList(w, thread, fileBytes, rs).Ok? ==>
              ScanList(w, thread, fileBytes, rs) == Ok(StateOf(w, thread, rs))
  {
    hide Admit, GoodRecords, StateOf, MetaAt;
    if rs == [] {
      NoRecords(w, thread);
    } else {
      var init, last := rs[..|rs| - 1], rs[|rs| - 1];
      assert rs == init + [last];
      ListExactly(w, thread, fileBytes, init);
      GoodBefore(w, thread, init, last);
      if GoodRecords(w, thread, init) && |Flat(init)| <= fileBytes {
        OneRecord(w, thread, fileBytes, init, last);
      }
    }
  }

  lemma NoRecords(w: World, thread: string)
    ensures GoodRecords(w, thread, []) && StateOf(w, thread, []) == START
  {
  }

  /** The records before good ones are good. */
  lemma GoodBefore(w: World, thread: string, init: seq<Bytes>, last: Bytes)
    ensures GoodRecords(w, thread, init + [last]) ==> GoodRecords(w, thread, init)
    ensures |Flat(init)| <= |Flat(init + [last])|
  {
    hide Typed, IsMeta, GoodMeta;
    var rs := init + [last];
    assert rs[..|rs| - 1] == init;
    assert forall r | r in init :: r in rs;
    assert forall i | 0 <= i < |init| :: rs[i] == init[i];
  }

  lemma OneRecord(w: World, thread: string, fileBytes: nat, init: seq<Bytes>, last: Bytes)
    requires GoodRecords(w, thread, init) && |Flat(init)| <= fileBytes
    ensures var r, rs := Admit(w, thread, fileBytes, StateOf(w, thread, init), last), init + [last];
            (r.Ok? <==> GoodRecords(w, thread, rs) && |Flat(rs)| <= fileBytes) &&
            (r.Ok? ==> r == Ok(StateOf(w, thread, rs)))
  {
    var rs := init + [last];
    assert rs[..|rs| - 1] == init && Flat(rs) == Flat(init) + last;
    if !Typed(w, last) {
      AdmitUntyped(w, thread, fileBytes, StateOf(w, thread, init), last);
      assert last in rs;
    } else {
      assert forall r :: r in rs <==> r in init || r == last;
      var m := MetaAt(w, init);
      if m < |init| {
        assert MetaAt(w, rs) == m && rs[m] == init[m];
        AfterMeta(w, thread, fileBytes, init, last);
      } else if IsMeta(w, last) {
        assert MetaAt(w, rs) == |init| && rs[|init|] == last;
        AtMeta(w, thread, fileBytes, init, last);
      } else {
        assert MetaAt(w, rs) == |rs|;
      }
    }
  }

  /** A record after the metadata. */
  lemma AfterMeta(w: World, thread: string, fileBytes: nat, init: seq<Bytes>, last: Bytes)
    requires GoodRecords(w, thread, init) && MetaAt(w, init) < |init| && |Flat(init)| <= fileBytes && Typed(w, last)
    requires forall r | r in init + [last] :: Typed(w, r)
    requires MetaAt(w, init + [last]) == MetaAt(w, init)
    ensures var r, rs := Admit(w, thread, fileBytes, StateOf(w, thread, init), last), init + [last];
            (r.Ok? <==> GoodRecords(w, thread, rs) && |Flat(init)| + |last| <= fileBytes) &&
            (r.Ok? && |Flat(rs)| == |Flat(init)| + |last| ==> r == Ok(StateOf(w, thread, rs)))
  {
    hide ParseID, Flat, ValidateMetadata;
    var rs, m := init + [last], MetaAt(w, init);
    var meta := w.parse(init[m]).value.meta.value;
    assert rs[m] == init[m];
    if meta.mode == "paginated" {
      PaginatedMore(w, init, last, FirstOf(meta));
    }
  }

  lemma PaginatedMore(w: World, init: seq<Bytes>, last: Bytes, first: u64)
    requires (forall r | r in init :: Typed(w, r)) && Typed(w, last) && Paginated(w, init, first)
    requires forall r | r in init + [last] :: Typed(w, r)
    ensures Paginated(w, init + [last], first) <==>
            !IsMeta(w, last) && OrdinalOf(w, last).Some? &&
            OrdinalOf(w, init[|init| - 1]).value < OrdinalOf(w, last).value
  {
    hide IsMeta, OrdinalOf;
    var rs := init + [last];
    assert forall i | 0 <= i < |init| :: rs[i] == init[i];
    assert rs[|init|] == last;
    if !IsMeta(w, last) && OrdinalOf(w, last).Some? &&
       OrdinalOf(w, init[|init| - 1]).value < OrdinalOf(w, last).value {
      forall i, j | 0 <= i < j < |rs|
        ensures OrdinalOf(w, rs[i]).value < OrdinalOf(w, rs[j]).value
      {
        if j == |init| && i < |init| - 1 {
          assert OrdinalOf(w, init[i]).value < OrdinalOf(w, init[|init| - 1]).value;
        }
      }
    }
  }

  /** The metadata record itself. */
  lemma AtMeta(w: World, thread: string, fileBytes: nat, init: seq<Bytes>, last: Bytes)
    requires GoodRecords(w, thread, init) && MetaAt(w, init) == |init| && |Flat(init)| <= fileBytes
    requires Typed(w, last) && IsMeta(w, last) && MetaAt(w, init + [last]) == |init|
    requires forall r | r in init + [last] :: Typed(w, r)
    ensures var r, rs := Admit(w, thread, fileBytes, StateOf(w, thread, init), last), init + [last];
            (r.Ok? <==> GoodRecords(w, thread, rs) && |Flat(init)| + |last| <= fileBytes) &&
            (r.Ok? && |Flat(rs)| == |Flat(init)| + |last| ==> r == Ok(StateOf(w, thread, rs)))
  {
    hide ParseID, Flat, ValidateMetadata, GoodMeta;
    var rs := init + [last];
    assert rs[|init|] == last;
    if w.parse(last).value.meta.Some? {
      ValidateExactly(w.parse(last).value.meta.value, thread);
    }
  }

  // ---- which files can be read ----

  lemma {:induction false} FlatFront(r: Bytes, rs: seq<Bytes>)
    ensures Flat([r] + rs) == r + Flat(rs)
  {
    if rs == [] {
      assert [r] + rs == [r] && [r][..0] == [];
    } else {
      var init, last := rs[..|rs| - 1], rs[|rs| - 1];
      FlatFront(r, init);
      assert ([r] + rs)[..|rs|] == [r] + init;
      assert r + Flat(rs) == (r + Flat(init)) + last;
    }
  }

  lemma RecordIsLine(s: Stream, max: int)
    requires NextRecord(s.data, s.clean, max).Ok?
    ensures var record := NextRecord(s.data, s.clean, max).value;
            if record == [] then s.data == [] && s.clean
            else record <= s.data && IsLine(record) && |record| <= max
  {
  }

  /** What has been scanned were lines, to a clean end. */
  lemma {:induction false} ScannedLines(w: World, thread: string, limits: Limits, s: Stream, st: Scan)
    returns (rs: seq<Bytes>)
    requires ScanAll(w, thread, limits, s, st).Ok?
    ensures s.clean && Flat(rs) == s.data && forall r | r in rs :: IsLine(r) && |r| <= limits.recordBytes
    decreases |s.data|
  {
    hide Admit, Flat, NextRecord, IsLine;
    var record := NextRecord(s.data, s.clean, limits.recordBytes).value;
    RecordIsLine(s, limits.recordBytes);
    if record == [] {
      rs := [];
      FlatNone();
    } else {
      var next := Admit(w, thread, limits.fileBytes, st, record).value;
      var rest := ScannedLines(w, thread, limits, s.(data := s.data[|record|..]), next);
      rs := [record] + rest;
      FlatFront(record, rest);
      assert s.data == record + s.data[|record|..];
    }
  }

  lemma FlatNone()
    ensures Flat([]) == []
  {
  }

  /** Whole files, exactly: reading succeeds on the rollouts of the thread within the limits and on nothing else, and
      establishes their size, digest, metadata and last ordinal. */
  lemma WholeExactly(w: World, thread: string, limits: Limits, rs: seq<Bytes>)
    requires limits.Valid() && forall r | r in rs :: IsLine(r)
    ensures Summarize(w, Stream(Flat(rs), true), thread, None, limits).Ok? <==> IsRollout(w, thread, limits, rs)
    ensures IsRollout(w, thread, limits, rs) ==>
              Summarize(w, Stream(Flat(rs), true), thread, None, limits) == Ok(SummaryOf(w, thread, rs))
  {
    hide ScanAll, ScanList, GoodRecords, Flat, IsLine;
    assert Flat(rs) + [] == Flat(rs);
    if forall r | r in rs :: |r| <= limits.recordBytes {
      ScanLines(w, thread, limits, rs, [], true);
      ScanEnds(w, thread, limits, ScanList(w, thread, limits.fileBytes, rs));
      ListExactly(w, thread, limits.fileBytes, rs);
    } else if ScanAll(w, thread, limits, Stream(Flat(rs), true), START).Ok? {
      var same := ScannedLines(w, thread, limits, Stream(Flat(rs), true), START);
      LinesUnique(rs, same);
    }
  }

  lemma ScanEnds(w: World, thread: string, limits: Limits, st: Result<Scan>)
    ensures st.Ok? ==> ScanAll(w, thread, limits, Stream([], true), st.value) == st
  {
  }

  /** A file is a list of lines in one way only. */
  lemma {:induction false} LinesUnique(a: seq<Bytes>, b: seq<Bytes>)
    requires Flat(a) == Flat(b) && (forall r | r in a :: IsLine(r)) && forall r | r in b :: IsLine(r)
    ensures a == b
    decreases |a|
  {
    if a == [] || b == [] {
      assert a != [] ==> IsLine(a[|a| - 1]);
      assert b != [] ==> IsLine(b[|b| - 1]);
    } else {
      var x, y := a[|a| - 1], b[|b| - 1];
      var u, v := Flat(a[..|a| - 1]), Flat(b[..|b| - 1]);
      assert a == a[..|a| - 1] + [x] && b == b[..|b| - 1] + [y];
      assert IsLine(x) && IsLine(y);
      FlatEnds(a[..|a| - 1]);
      FlatEnds(b[..|b| - 1]);
      LastLine(u, x, v, y);
      LastLine(v, y, u, x);
      assert u == (u + x)[..|u|] && v == (v + y)[..|v|];
      assert x == (u + x)[|u|..] && y == (v + y)[|v|..];
      LinesUnique(a[..|a| - 1], b[..|b| - 1]);
    }
  }

  lemma FlatEnds(rs: seq<Bytes>)
    requires forall r | r in rs :: IsLine(r)
    ensures Flat(rs) != [] ==> Flat(rs)[|Flat(rs)| - 1] == NEWLINE
  {
    if rs != [] {
      assert IsLine(rs[|rs| - 1]);
    }
  }

  /** Whatever else ends in a newline ends before the last line or with it. */
  lemma LastLine(u: Bytes, x: Bytes, v: Bytes, y: Bytes)
    requires u + x == v + y && IsLine(x) && IsLine(y) && (u != [] ==> u[|u| - 1] == NEWLINE)
    ensures |u| <= |v|
  {
    var d := v + y;
    forall p | |v| <= p < |d| - 1
      ensures d[p] != NEWLINE
    {
      assert d[p] == y[..|y| - 1][p - |v|];
    }
    assert u != [] ==> d[|u| - 1] == (u + x)[|u| - 1] == NEWLINE;
  }

  /** Any stream, exactly. */
  lemma ReadableExactly(w: World, s: Stream, thread: string, limits: Limits)
    requires limits.Valid()
    ensures Summarize(w, s, thread, None, limits).Ok? <==>
            s.clean && exists rs :: Flat(rs) == s.data && (forall r | r in rs :: IsLine(r)) &&
                                    IsRollout(w, thread, limits, rs)
  {
    hide ScanAll, IsRollout, Flat, IsLine;
    if Summarize(w, s, thread, None, limits).Ok? {
      var rs := ScannedLines(w, thread, limits, s, START);
      assert s == Stream(Flat(rs), true);
      WholeExactly(w, thread, limits, rs);
    } else if s.clean {
      forall rs | Flat(rs) == s.data && forall r | r in rs :: IsLine(r)
        ensures !IsRollout(w, thread, limits, rs)
      {
        assert s == Stream(Flat(rs), true);
        WholeExactly(w, thread, limits, rs);
      }
    }
  }

  /** Cutoffs, exactly: a file can be read at a cutoff if and only if it has that many bytes, within the limit, and they
      are by themselves a paginated rollout that ends at the cutoff's ordinal. */
  lemma CutoffExactly(w: World, s: Stream, thread: string, end: HistoryPosition, limits: Limits)
    requires limits.Valid()
    ensures Summarize(w, s, thread, Some(end), limits).Ok? <==>
            0 < end.endByte <= limits.fileBytes && end.endByte <= |s.data| &&
            var whole := Summarize(w, Stream(s.data[..end.endByte], true), thread, None, limits);
            whole.Ok? && whole.value.meta.mode == "paginated" && whole.value.lastOrdinal + 1 == end.endOrdinal
    ensures Summarize(w, s, thread, Some(end), limits).Ok? ==>
              Summarize(w, s, thread, Some(end), limits) ==
              Summarize(w, Stream(s.data[..end.endByte], true), thread, None, limits)
  {
    hide ScanAll;
    if Summarize(w, s, thread, Some(end), limits).Ok? {
      CutoffIsWhole(w, s, thread, end, limits);
      SummaryCovers(w, s, thread, Some(end), limits);
    } else if 0 < end.endByte <= limits.fileBytes && end.endByte <= |s.data| {
      var cut := Stream(s.data[..end.endByte], true);
      assert Limited(s, Some(end)) == cut;
      if Summarize(w, cut, thread, None, limits).Ok? {
        SummaryCovers(w, cut, thread, None, limits);
        assert Content(cut, None) == cut.data;
      }
    }
  }

  // ---- stored files ----

  ghost predicate HoldsRollout(w: World, data: Bytes, thread: string, limits: Limits) {
    exists rs :: Flat(rs) == data && (forall r | r in rs :: IsLine(r)) && IsRollout(w, thread, limits, rs)
  }

  /** A stored file reads as a whole rollout if and only if what it decodes to, to a clean end, is one. */
  lemma ReadExactly(w: World, node: Node, c: Candidate, limits: Limits)
    requires limits.Valid()
    ensures Read(w, node, c, None, limits, false).Ok? <==>
            if HasSuffix(c.path, ".zst")
            then w.inflate(node.raw).clean && HoldsRollout(w, w.inflate(node.raw).data, c.thread, limits)
            else HoldsRollout(w, node.raw, c.thread, limits)
  {
    hide IsRollout, Flat, IsLine, Summarize;
    ReadableExactly(w, Decoded(w, c.path, node.raw), c.thread, limits);
  }

  lemma RolloutEnds(w: World, d: Bytes, thread: string, limits: Limits)
    requires HoldsRollout(w, d, thread, limits)
    ensures d != [] && d[|d| - 1] == NEWLINE
  {
    var rs :| Flat(rs) == d && (forall r | r in rs :: IsLine(r)) && IsRollout(w, thread, limits, rs);
    assert IsLine(rs[|rs| - 1]);
  }

  /** A live plain file is captured if and only if, but for an unfinished record within the limit, it is one. */
  lemma CaptureExactly(w: World, node: Node, c: Candidate, limits: Limits)
    requires limits.Valid() && !HasSuffix(c.path, ".zst")
    ensures Read(w, node, c, None, limits, true).Ok? <==>
            exists k: nat :: k <= |node.raw| && HoldsRollout(w, node.raw[..k], c.thread, limits) &&
                             NEWLINE !in node.raw[k..] && |node.raw| - k <= limits.recordBytes
  {
    hide IsRollout, Flat, IsLine, Summarize, HoldsRollout, AfterLastNewline;
    var d := node.raw;
    var b := AfterLastNewline(d);
    forall k: nat | k <= |d| && HoldsRollout(w, d[..k], c.thread, limits) && NEWLINE !in d[k..]
      ensures k == b && b > 0
    {
      RolloutEnds(w, d[..k], c.thread, limits);
      assert d[..k][k - 1] == d[k - 1];
      BoundaryIs(d, k);
    }
    WholePrefix(w, d[..b], c.thread, limits);
  }

  lemma WholePrefix(w: World, d: Bytes, thread: string, limits: Limits)
    requires limits.Valid()
    ensures Summarize(w, Stream(d, true), thread, None, limits).Ok? <==> HoldsRollout(w, d, thread, limits)
  {
    hide IsRollout, Flat, IsLine, Summarize;
    ReadableExactly(w, Stream(d, true), thread, limits);
  }
}
