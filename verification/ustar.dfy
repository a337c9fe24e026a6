// The tar headers of the transfer stream, byte by byte: the 512-byte ustar block and, for sizes its octal field cannot
// hold, the extended header of the pax interchange format (POSIX.1-2017, pax utility) that Go's archive/tar writes.

module Ustar {
  import opened Model
  import opened Format
  import opened Slots
  import opened Tar

  // ---- text and bytes ----

  predicate Ascii(s: string) {
    forall c | c in s :: 0 < c as int < 128
  }

  function AsBytes(s: string): (b: Bytes)
    requires Ascii(s)
    ensures |b| == |s| && forall i | 0 <= i < |s| :: b[i] as int == s[i] as int
  {
    seq(|s|, i requires 0 <= i < |s| => assert s[i] in s; s[i] as int as byte)
  }

  function AsText(b: Bytes): (s: string)
    ensures |s| == |b| && forall i | 0 <= i < |b| :: s[i] as int == b[i] as int
  {
    seq(|b|, i requires 0 <= i < |b| => b[i] as int as char)
  }

  lemma TextBack(s: string)
    requires Ascii(s)
    ensures AsText(AsBytes(s)) == s
  {
  }

  /** The text of a field, up to its first NUL. */
  function FieldText(b: Bytes): string {
    if b == [] || b[0] == 0 then "" else [b[0] as int as char] + FieldText(b[1..])
  }

  lemma {:induction false} FieldBack(s: string, pad: nat)
    requires Ascii(s)
    ensures FieldText(AsBytes(s) + Zero(pad)) == s
  {
    var b := AsBytes(s) + Zero(pad);
    if s == "" {
      assert b == Zero(pad);
    } else {
      assert s[0] in s && forall c | c in s[1..] :: c in s;
      FieldBack(s[1..], pad);
      assert b[1..] == AsBytes(s[1..]) + Zero(pad);
      assert s == [s[0]] + s[1..];
    }
  }

  // ---- octal fields ----

  function Pow8(k: nat): (p: nat)
    ensures p >= 1
  {
    if k == 0 then 1 else 8 * Pow8(k - 1)
  }

  function Octal(n: nat, k: nat): (b: Bytes)
    ensures |b| == k
  {
    if k == 0 then [] else Octal(n / 8, k - 1) + [(48 + n % 8) as byte]
  }

  predicate OctalDigits(b: Bytes) {
    forall i | 0 <= i < |b| :: 48 <= b[i] as int < 56
  }

  function OctalValue(b: Bytes): nat
    requires OctalDigits(b)
  {
    if b == [] then 0 else 8 * OctalValue(b[..|b| - 1]) + (b[|b| - 1] as int - 48)
  }

  lemma {:induction false} OctalBack(n: nat, k: nat)
    requires n < Pow8(k)
    ensures OctalDigits(Octal(n, k)) && OctalValue(Octal(n, k)) == n
  {
    if k > 0 {
      OctalBack(n / 8, k - 1);
      assert Octal(n, k)[..k - 1] == Octal(n / 8, k - 1);
    }
  }

  // ---- one block ----

  function Sum(b: Bytes): (n: nat)
    ensures n <= 255 * |b|
  {
    if b == [] then 0 else Sum(b[..|b| - 1]) + b[|b| - 1] as int
  }

  const MAGIC: Bytes := [117, 115, 116, 97, 114, 0, 48, 48]
  const REGULAR: byte := 48
  const EXTENDED: byte := 120
  const PERMISSIONS: nat := 384

  function NameField(name: string): (b: Bytes)
    requires Ascii(name) && |name| <= 100
    ensures |b| == 100
  {
    AsBytes(name) + Zero(100 - |name|)
  }

  function Number8(n: nat, k: nat): (b: Bytes)
    ensures |b| == k + 1
  {
    Octal(n, k) + [0]
  }

  /** mode, uid and gid. */
  function Ids(mode: nat): (b: Bytes)
    ensures |b| == 24
  {
    Number8(mode, 7) + Number8(0, 7) + Number8(0, 7)
  }

  /** Everything before the checksum: name, mode, uid, gid, size and modification time. */
  function Front(name: string, mode: nat, size: nat): (b: Bytes)
    requires Ascii(name) && |name| <= 100
    ensures |b| == 148
  {
    NameField(name) + Ids(mode) + (Number8(size, 11) + Number8(0, 11))
  }

  /** Everything behind it: type, link name, magic, owner names, device numbers, prefix and padding. */
  function Rear(kind: byte): (b: Bytes)
    ensures |b| == 356
  {
    ([kind] + Zero(100)) + MAGIC + (Zero(64) + Number8(0, 7) + Number8(0, 7) + Zero(167))
  }

  /** The checksum counts its own field as spaces. */
  function Checksum(front: Bytes, rear: Bytes): (b: Bytes)
    ensures |b| == 8
  {
    Octal(Sum(front) + 8 * 32 + Sum(rear), 6) + [0, 32]
  }

  function Block(name: string, kind: byte, mode: nat, size: nat): (b: Bytes)
    requires Ascii(name) && |name| <= 100
    ensures |b| == BLOCK
  {
    Front(name, mode, size) + Checksum(Front(name, mode, size), Rear(kind)) + Rear(kind)
  }

  datatype BlockRead = Unreadable | Readable(name: string, kind: byte, link: string, size: nat)

  /** A block whose checksum and magic are right. */
  function ReadBlock(b: Bytes): BlockRead
    requires |b| == BLOCK
  {
    if b[148..156] != Checksum(b[..148], b[156..]) || b[257..265] != MAGIC || !OctalDigits(b[124..135]) then Unreadable
    else Readable(FieldText(b[..100]), b[156], FieldText(b[157..257]), OctalValue(b[124..135]))
  }

  lemma FrontParts(name: string, mode: nat, size: nat)
    requires Ascii(name) && |name| <= 100
    ensures Front(name, mode, size)[..100] == NameField(name)
    ensures Front(name, mode, size)[124..135] == Octal(size, 11)
  {
    hide NameField, Ids, Octal;
    var head, tail := NameField(name) + Ids(mode), Number8(size, 11) + Number8(0, 11);
    assert tail[..11] == Octal(size, 11);
  }

  lemma RearParts(kind: byte)
    ensures Rear(kind)[0] == kind && Rear(kind)[1..101] == Zero(100) && Rear(kind)[101..109] == MAGIC
  {
    hide Octal;
  }

  /** A printed block is read back. */
  lemma BlockBack(name: string, kind: byte, mode: nat, size: nat)
    requires Ascii(name) && |name| <= 100 && size < Pow8(11)
    ensures ReadBlock(Block(name, kind, mode, size)) == Readable(name, kind, "", size)
  {
    hide NameField, Octal, Checksum, Front, Rear, FieldText, OctalValue, Pow8;
    var front, rear, b := Front(name, mode, size), Rear(kind), Block(name, kind, mode, size);
    assert b[..148] == front && b[148..156] == Checksum(front, rear) && b[156..] == rear;
    FrontParts(name, mode, size);
    RearParts(kind);
    assert b[..100] == front[..100] && b[124..135] == front[124..135];
    assert b[156] == rear[0] && b[157..257] == rear[1..101] && b[257..265] == rear[101..109];
    OctalBack(size, 11);
    NameBack(name);
    assert FieldText(Zero(100)) == "" by {
      NoText(100);
    }
  }

  lemma {:induction false} SumUpdate(b: Bytes, i: nat, v: byte)
    requires i < |b|
    ensures Sum(b[i := v]) == Sum(b) - b[i] as int + v as int
  {
    var c := b[i := v];
    if i == |b| - 1 {
      assert c[..i] == b[..i];
    } else {
      SumUpdate(b[..|b| - 1], i, v);
      assert c[..|b| - 1] == b[..|b| - 1][i := v];
    }
  }

  /** Different sums have different checksums. */
  lemma ChecksumTells(a: Bytes, b: Bytes, c: Bytes, d: Bytes)
    requires |a| == |c| == 148 && |b| == |d| == 356 && Sum(a) + Sum(b) != Sum(c) + Sum(d)
    ensures Checksum(a, b) != Checksum(c, d)
  {
    hide Sum, Octal, OctalDigits, OctalValue;
    var m, n := Sum(a) + 8 * 32 + Sum(b), Sum(c) + 8 * 32 + Sum(d);
    assert Pow8(6) == 262144;
    OctalBack(m, 6);
    OctalBack(n, 6);
    assert Checksum(a, b)[..6] == Octal(m, 6) && Checksum(c, d)[..6] == Octal(n, 6);
  }

  /** A header in which any one byte outside the checksum has changed is not read at all. */
  lemma CorruptedUnreadable(b: Bytes, i: nat, v: byte)
    requires |b| == BLOCK && ReadBlock(b).Readable? && i < BLOCK && (i < 148 || i >= 156) && v != b[i]
    ensures ReadBlock(b[i := v]) == Unreadable
  {
    hide Checksum, Sum, OctalDigits, OctalValue, FieldText;
    var c := b[i := v];
    assert c[148..156] == b[148..156];
    if i < 148 {
      assert c[..148] == b[..148][i := v] && c[156..] == b[156..];
      SumUpdate(b[..148], i, v);
    } else {
      assert c[..148] == b[..148] && c[156..] == b[156..][i - 156 := v];
      SumUpdate(b[156..], i - 156, v);
    }
    ChecksumTells(b[..148], b[156..], c[..148], c[156..]);
  }

  lemma NameBack(name: string)
    requires Ascii(name) && |name| <= 100
    ensures FieldText(NameField(name)) == name
  {
    FieldBack(name, 100 - |name|);
  }

  lemma NoText(n: nat)
    ensures FieldText(Zero(n)) == ""
  {
  }

  // ---- the extended header ----

  /** A size record: its own length in decimal, the keyword, the value and a newline. */
  function Record(size: nat): string {
    Decimal(|Decimal(size)| + 9) + " size=" + Decimal(size) + "\n"
  }

  function RecordValue(b: Bytes): Option<nat> {
    var s := AsText(b);
    if |s| < 10 || !Digit(s[0]) || !Digit(s[1]) || Number(s[..2]) != |s| || s[2..8] != " size=" ||
       s[|s| - 1] != '\n' || exists c | c in s[8..|s| - 1] :: !Digit(c)
    then None
    else Some(Number(s[8..|s| - 1]))
  }

  /** The extended header of a member has a name of its own, cut to the field. */
  function PaxName(name: string): (r: string)
    requires Ascii(name)
    ensures Ascii(r) && |r| <= 100
  {
    AfterSlashTail(name);
    var cut := |name| - |AfterSlash(name)|;
    var full := name[..cut] + "PaxHeaders.0/" + name[cut..];
    Joined(name, cut, "PaxHeaders.0/");
    if |full| <= 100 then full else full[..100]
  }

  lemma Joined(name: string, cut: nat, s: string)
    requires cut <= |name| && Ascii(name) && Ascii(s)
    ensures Ascii(name[..cut] + s + name[cut..])
    ensures var full := name[..cut] + s + name[cut..]; |full| > 100 ==> Ascii(full[..100])
  {
    var full := name[..cut] + s + name[cut..];
    assert forall i | 0 <= i < |name| :: name[i] in name;
    assert forall i | 0 <= i < |s| :: s[i] in s;
    assert forall i | 0 <= i < |full| :: 0 < full[i] as int < 128;
  }

  /** The first size the octal field cannot hold. */
  const OCTAL_SIZES: nat := 0x2_0000_0000

  lemma RecordShape(size: nat)
    requires OCTAL_SIZES <= size <= MAX_INT64
    ensures var k := |Decimal(size)|; 10 <= k <= 19 && |Decimal(k + 9)| == 2
    ensures Ascii(Record(size)) && |Record(size)| == |Decimal(size)| + 9 <= 28
  {
    hide Decimal, Pow10;
    var k := |Decimal(size)|;
    DecimalLength(size, 9);
    DecimalLength(size, 19);
    Power9();
    TenToNineteen();
    TwoDigitNumber(k + 9);
    DigitsAscii(Decimal(size));
    DigitsAscii(Decimal(k + 9));
  }

  lemma Power9()
    ensures Pow10(9) <= OCTAL_SIZES
  {
    assert Pow10(4) == 10000 && Pow10(8) == 10000 * Pow10(4) && Pow10(9) == 10 * Pow10(8);
  }

  lemma TwoDigitNumber(n: nat)
    requires 10 <= n < 100
    ensures |Decimal(n)| == 2
  {
    assert |Decimal(n / 10)| == 1;
  }

  lemma DigitsAscii(s: string)
    requires forall c | c in s :: Digit(c)
    ensures Ascii(s)
  {
  }

  lemma RecordBack(size: nat)
    requires OCTAL_SIZES <= size <= MAX_INT64
    ensures Ascii(Record(size)) && RecordValue(AsBytes(Record(size))) == Some(size)
  {
    hide Decimal, Number;
    RecordShape(size);
    TextBack(Record(size));
    var s, head, digits := Record(size), Decimal(|Decimal(size)| + 9), Decimal(size);
    assert s == head + " size=" + digits + "\n";
    assert s[..2] == head && s[0] in head && s[1] in head;
    assert s[2..8] == " size=";
    assert s[8..|s| - 1] == digits;
  }

  // ---- the codec ----

  function Write(name: string, size: nat): Bytes {
    if !Writable(name, size) then []
    else if size < OCTAL_SIZES then Block(name, REGULAR, PERMISSIONS, size)
    else
      RecordShape(size);
      var record := AsBytes(Record(size));
      Block(PaxName(name), EXTENDED, 0, |record|) + (record + Zero(BLOCK - |record|)) +
      Block(name, REGULAR, PERMISSIONS, 0)
  }

  function Read(d: Bytes): HeaderRead {
    if |d| < BLOCK then Broken
    else match ReadBlock(d[..BLOCK])
      case Unreadable => Broken
      case Readable(name, kind, link, size) =>
        if kind == EXTENDED then ReadExtended(d, size) else Member(Header(name, kind == REGULAR, link, size), BLOCK)
  }

  /** An extended header whose one record is a size, and the block it belongs to. */
  function ReadExtended(d: Bytes, length: nat): HeaderRead {
    if length > BLOCK || |d| < 3 * BLOCK then Broken
    else match (RecordValue(d[BLOCK..BLOCK + length]), ReadBlock(d[2 * BLOCK..3 * BLOCK]))
      case (Some(size), Readable(name, kind, link, _)) =>
        if kind == EXTENDED then Broken else Member(Header(name, kind == REGULAR, link, size), 3 * BLOCK)
      case _ => Broken
  }

  const HEADERS := Codec(Write, Read)

  lemma PlainBack(name: string, size: nat, rest: Bytes)
    requires Writable(name, size) && size < OCTAL_SIZES
    ensures Read(Write(name, size) + rest) == Member(Header(name, true, "", size), |Write(name, size)|)
  {
    hide Block, ReadBlock, ReadExtended;
    OctalSizes();
    var d := Write(name, size) + rest;
    BlockBack(name, REGULAR, PERMISSIONS, size);
    assert d[..BLOCK] == Block(name, REGULAR, PERMISSIONS, size);
  }

  lemma OctalSizes()
    ensures Pow8(11) == OCTAL_SIZES
  {
    assert Pow8(4) == 4096 && Pow8(8) == 4096 * Pow8(4) && Pow8(11) == 512 * Pow8(8);
  }

  lemma ExtendedBack(name: string, size: nat, rest: Bytes)
    requires Writable(name, size) && size >= OCTAL_SIZES
    ensures Read(Write(name, size) + rest) == Member(Header(name, true, "", size), |Write(name, size)|)
  {
    hide Block, ReadBlock, Record, RecordValue, PaxName, Pow10;
    OctalSizes();
    RecordShape(size);
    RecordBack(size);
    var record, d := AsBytes(Record(size)), Write(name, size) + rest;
    var first, last := Block(PaxName(name), EXTENDED, 0, |record|), Block(name, REGULAR, PERMISSIONS, 0);
    var middle := record + Zero(BLOCK - |record|);
    assert d == first + middle + last + rest;
    assert d[..BLOCK] == first && d[2 * BLOCK..3 * BLOCK] == last && d[BLOCK..BLOCK + |record|] == record;
    BlockBack(PaxName(name), EXTENDED, 0, |record|);
    BlockBack(name, REGULAR, PERMISSIONS, 0);
  }

  lemma ReadsLocally(d: Bytes, e: Bytes)
    requires Read(d).Member?
    ensures Read(d).length <= |d| && |d| >= BLOCK && (d[..Read(d).length] <= e ==> Read(e) == Read(d))
  {
    hide ReadBlock, RecordValue;
    var n := Read(d).length;
    if d[..n] <= e {
      assert e[..BLOCK] == d[..BLOCK];
      if n == 3 * BLOCK {
        assert e[..n] == d[..n];
        assert e[2 * BLOCK..3 * BLOCK] == e[..n][2 * BLOCK..] == d[2 * BLOCK..3 * BLOCK];
        var length := ReadBlock(d[..BLOCK]).size;
        assert e[BLOCK..BLOCK + length] == e[..n][BLOCK..BLOCK + length] == d[BLOCK..BLOCK + length];
      }
    }
  }

  lemma NeverZero(d: Bytes)
    requires Read(d).Member?
    ensures !ZeroBlock(d)
  {
    hide FieldText, OctalValue, Checksum;
    var b := d[..BLOCK];
    assert b[257..265][0] == MAGIC[0];
    assert b[257] == 117;
  }

  /** What every result about the transfer stream asks of the header codec holds of these headers. */
  lemma HeadersFaithful()
    ensures Faithful(HEADERS)
  {
    hide Read, Write, ZeroBlock;
    forall name: string, size: nat, rest: Bytes | Writable(name, size)
      ensures Read(Write(name, size) + rest) == Member(Header(name, true, "", size), |Write(name, size)|)
    {
      if size < OCTAL_SIZES {
        PlainBack(name, size, rest);
      } else {
        ExtendedBack(name, size, rest);
      }
    }
    forall d: Bytes, e: Bytes | Read(d).Member?
      ensures Read(d).length <= |d| && (d[..Read(d).length] <= e ==> Read(e) == Read(d))
    {
      ReadsLocally(d, e);
    }
    forall d: Bytes | Read(d).Member?
      ensures |d| >= BLOCK && !ZeroBlock(d)
    {
      ReadsLocally(d, d);
      NeverZero(d);
    }
  }
}
