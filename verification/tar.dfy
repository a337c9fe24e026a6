// Tar framing as the transfer stream uses it (ustar interchange format of the pax utility, POSIX.1-2017): header
// blocks, data, zero padding to 512 bytes and two zero end blocks. internal/session/stream.go with Go's archive/tar.

module Tar {
  import opened Model

  const BLOCK := 512

  datatype Header = Header(name: string, regular: bool, link: string, size: nat)

  /** What a reader makes of the blocks where a header is due. */
  datatype HeaderRead = Broken | Member(header: Header, length: nat)

  /** The header codec: `write` makes the header blocks of a regular member, `read` finds one at the start of the
      rest. */
  datatype Codec = Codec(write: (string, nat) -> Bytes, read: Bytes -> HeaderRead)

  function Zero(n: nat): (z: Bytes)
    ensures |z| == n && forall i | 0 <= i < n :: z[i] == 0
  {
    seq(n, i => 0)
  }

  predicate ZeroBlock(d: Bytes) {
    |d| >= BLOCK && d[..BLOCK] == Zero(BLOCK)
  }

  /** What one header field each can hold: an ASCII name of at most 100 characters and an int64. */
  predicate Writable(name: string, size: nat) {
    1 <= |name| <= 100 && (forall c | c in name :: 0 < c as int < 128) && size <= MAX_INT64
  }

  /** Headers are read where they were printed, a reader looks at no byte beyond the header, and no header begins with
      a zero block. */
  ghost predicate Faithful(c: Codec) {
    (forall name: string, size: nat, rest: Bytes | Writable(name, size) ::
       c.read(c.write(name, size) + rest) == Member(Header(name, true, "", size), |c.write(name, size)|)) &&
    (forall d: Bytes, e: Bytes | c.read(d).Member? ::
       c.read(d).length <= |d| && (d[..c.read(d).length] <= e ==> c.read(e) == c.read(d))) &&
    (forall d: Bytes | c.read(d).Member? :: |d| >= BLOCK && !ZeroBlock(d))
  }

  function Pad(size: nat): (p: nat)
    ensures p < BLOCK && (size + p) % BLOCK == 0
  {
    (BLOCK - size % BLOCK) % BLOCK
  }

  // ---- what a reader sees ----

  /** Reader.Next after skipping `pad` bytes: a header and the rest behind it, a clean end, or an error. `used` counts
      the bytes read. Short padding counts as the end. */
  datatype NextRead = End(used: nat) | Failed | At(header: Header, rest: Bytes)

  function Next(c: Codec, s: Stream, pad: nat): NextRead {
    if |s.data| < pad then (if s.clean then End(|s.data|) else Failed)
    else
      var d := s.data[pad..];
      if d == [] then (if s.clean then End(pad) else Failed)
      else if |d| < BLOCK then Failed
      else if ZeroBlock(d) then
        if |d| == BLOCK then (if s.clean then End(pad + BLOCK) else Failed)
        else if ZeroBlock(d[BLOCK..]) then End(pad + 2 * BLOCK)
        else Failed
      else match c.read(d)
        case Broken => Failed
        case Member(h, n) => if n <= |d| then At(h, d[n..]) else Failed
  }

  /** The data of a member, and what follows it. */
  function Body(s: Stream, size: nat): Result<(Bytes, Bytes)> {
    if |s.data| < size then Err(if s.clean then Truncated else ReadFailed) else Ok((s.data[..size], s.data[size..]))
  }

  /** expectedMember, then its data. */
  function Expect(c: Codec, s: Stream, pad: nat, name: string, size: nat): Result<(Bytes, Bytes)> {
    match Next(c, s, pad)
    case End(_) => Err(Truncated)
    case Failed => Err(BadMember)
    case At(h, rest) => if h != Header(name, true, "", size) then Err(BadMember) else Body(Stream(rest, s.clean), size)
  }

  // ---- laws ----

  lemma WrittenHeader(c: Codec, name: string, size: nat, rest: Bytes)
    requires Faithful(c) && Writable(name, size)
    ensures c.read(c.write(name, size) + rest) == Member(Header(name, true, "", size), |c.write(name, size)|)
    ensures |c.write(name, size) + rest| >= BLOCK && !ZeroBlock(c.write(name, size) + rest)
  {
    hide ZeroBlock;
    assert c.read(c.write(name, size) + rest).Member?;
  }

  lemma HeaderLocal(c: Codec, d: Bytes, more: Bytes)
    requires Faithful(c) && c.read(d).Member?
    ensures c.read(d).length <= |d| && c.read(d + more) == c.read(d)
    ensures |d| >= BLOCK && !ZeroBlock(d) && !ZeroBlock(d + more)
  {
    hide ZeroBlock;
    var e, n := d + more, c.read(d).length;
    assert d[..n] <= e;
  }

  /** What has been read does not depend on what follows. */
  lemma NextLocal(c: Codec, s: Stream, pad: nat, more: Bytes)
    requires Faithful(c) && Next(c, s, pad).At?
    ensures var r := Next(c, s, pad); Next(c, s.(data := s.data + more), pad) == At(r.header, r.rest + more)
  {
    hide Faithful, ZeroBlock;
    var d := s.data[pad..];
    assert (s.data + more)[pad..] == d + more;
    HeaderLocal(c, d, more);
    var n := c.read(d).length;
    assert (d + more)[n..] == d[n..] + more;
  }

  lemma ExpectLocal(c: Codec, s: Stream, pad: nat, name: string, size: nat, more: Bytes)
    requires Faithful(c) && Expect(c, s, pad, name, size).Ok?
    ensures var r := Expect(c, s, pad, name, size).value;
            Expect(c, s.(data := s.data + more), pad, name, size) == Ok((r.0, r.1 + more))
  {
    hide Faithful, Next;
    NextLocal(c, s, pad, more);
    var rest := Next(c, s, pad).rest;
    assert (rest + more)[..size] == rest[..size];
    assert (rest + more)[size..] == rest[size..] + more;
  }

  /** A written header is found behind the padding it follows. */
  lemma HeaderFound(c: Codec, pending: nat, name: string, size: nat, rest: Bytes, s: Stream)
    requires Faithful(c) && Writable(name, size) && s.data == Zero(pending) + c.write(name, size) + rest
    ensures Next(c, s, pending) == At(Header(name, true, "", size), rest)
  {
    hide Faithful, ZeroBlock;
    var h := c.write(name, size);
    var d := s.data[pending..];
    assert d == h + rest;
    WrittenHeader(c, name, size, rest);
    assert d[|h|..] == rest;
  }

  /** A written member is read back, wherever it stands. */
  lemma MemberRead(c: Codec, pending: nat, name: string, data: Bytes, more: Bytes, s: Stream)
    requires Faithful(c) && Writable(name, |data|) && s.data == Zero(pending) + (c.write(name, |data|) + data) + more
    ensures Next(c, s, pending) == At(Header(name, true, "", |data|), data + more)
    ensures Expect(c, s, pending, name, |data|) == Ok((data, more))
  {
    hide Faithful, Next;
    assert s.data == Zero(pending) + c.write(name, |data|) + (data + more);
    HeaderFound(c, pending, name, |data|, data + more, s);
    assert (data + more)[..|data|] == data && (data + more)[|data|..] == more;
  }

  /** Nothing can be expected of an exhausted stream. */
  lemma NothingExpected(c: Codec, clean: bool, pad: nat, name: string, size: nat)
    ensures Expect(c, Stream([], clean), pad, name, size).Err?
  {
  }

  /** The check Receive makes after the completion record: the end is reached after exactly the record's padding and
      two blocks, and nothing follows. */
  predicate Trailer(c: Codec, s: Stream, size: nat) {
    Next(c, s, Pad(size)) == End(Pad(size) + 2 * BLOCK) && |s.data| == Pad(size) + 2 * BLOCK && s.clean
  }

  /** It holds of exactly the two zero end blocks behind padding of any content. */
  lemma TrailerExact(c: Codec, s: Stream, size: nat)
    ensures Trailer(c, s, size) <==>
            s.clean && |s.data| == Pad(size) + 2 * BLOCK && s.data[Pad(size)..] == Zero(2 * BLOCK)
  {
    if |s.data| == Pad(size) + 2 * BLOCK {
      var d := s.data[Pad(size)..];
      assert d == d[..BLOCK] + d[BLOCK..];
      assert Zero(2 * BLOCK) == Zero(BLOCK) + Zero(BLOCK);
      assert d[BLOCK..][..BLOCK] == d[BLOCK..];
    }
  }

  // ---- the reader and writer the source drives ----

  class Reader {
    const codec: Codec
    const input: Stream
    var pos: nat
    var pad: nat

    constructor (codec: Codec, input: Stream)
      ensures this.codec == codec && this.input == input && pos == 0 && pad == 0
    {
      this.codec, this.input, pos, pad := codec, input, 0, 0;
    }

    predicate Valid()
      reads this
    {
      pos <= |input.data|
    }

    function Rest(): Stream
      requires Valid()
      reads this
    {
      Stream(input.data[pos..], input.clean)
    }

    /** Advance to the next member; `pos` counts what has been read. */
    method Advance() returns (r: NextRead)
      requires Valid()
      modifies this
      ensures Valid() && r == Next(codec, old(Rest()), old(pad))
      ensures r.End? ==> pos == old(pos) + r.used
      ensures r.At? ==> Rest() == Stream(r.rest, input.clean) && pad == Pad(r.header.size)
    {
      var s := Rest();
      r := Next(codec, s, pad);
      match r
      case End(used) =>
        EndWithin(codec, s, pad);
        pos := pos + used;
      case Failed =>
      case At(h, rest) =>
        AtWithin(codec, s, pad);
        pos := |input.data| - |rest|;
        pad := Pad(h.size);
    }

    /** io.ReadAll or io.CopyN of a whole member. */
    method ReadBody(size: nat) returns (r: Result<Bytes>)
      requires Valid()
      modifies `pos
      ensures Valid()
      ensures Body(old(Rest()), size).Ok? <==> r.Ok?
      ensures r.Ok? ==> Body(old(Rest()), size) == Ok((r.value, Rest().data))
      ensures r.Err? ==> r.error == Body(old(Rest()), size).error
    {
      var s := Rest();
      if |s.data| < size {
        return Err(if s.clean then Truncated else ReadFailed);
      }
      r := Ok(s.data[..size]);
      pos := pos + size;
      assert s.data[size..] == input.data[pos..];
    }
  }

  lemma EndWithin(c: Codec, s: Stream, pad: nat)
    requires Next(c, s, pad).End?
    ensures Next(c, s, pad).used <= |s.data|
  {
  }

  lemma AtWithin(c: Codec, s: Stream, pad: nat)
    requires Next(c, s, pad).At?
    ensures var rest := Next(c, s, pad).rest; |rest| <= |s.data| && rest == s.data[|s.data| - |rest|..]
  {
    var d := s.data[pad..];
    var n := c.read(d).length;
    assert d[n..] == s.data[pad + n..];
  }

  /** tar.Writer over any output. */
  class Writer {
    const codec: Codec
    var out: Bytes
    var pending: nat

    constructor (codec: Codec)
      ensures this.codec == codec && out == [] && pending == 0
    {
      this.codec, out, pending := codec, [], 0;
    }

    method WriteHeader(name: string, size: nat)
      modifies this
      ensures out == old(out) + Zero(old(pending)) + codec.write(name, size) && pending == Pad(size)
    {
      out := out + Zero(pending) + codec.write(name, size);
      pending := Pad(size);
    }

    method Write(data: Bytes)
      modifies `out
      ensures out == old(out) + data
    {
      out := out + data;
    }

    method Close()
      modifies this
      ensures out == old(out) + Zero(old(pending)) + Zero(2 * BLOCK)
    {
      out := out + Zero(pending) + Zero(2 * BLOCK);
      pending := 0;
    }
  }
}
