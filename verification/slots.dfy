// The names a transfer's private staging area uses: internal/session/stage_recovery.go, stage.go and stream.go.

module Slots {
  import opened Model
  import opened Format

  const STAGING_PREFIX := ".hcorral-transfer-v1-"
  const LEASE := ".lease"

  // ---- decimal numbers ----

  function DigitChar(d: nat): (c: char)
    requires d < 10
    ensures Digit(c) && c as int - '0' as int == d
  {
    ('0' as int + d) as char
  }

  /** Go's %d. */
  function Decimal(n: nat): (s: string)
    ensures s != "" && forall c | c in s :: Digit(c)
    ensures Number(s) == n
  {
    if n < 10 then
      assert [DigitChar(n)][..0] == "";
      [DigitChar(n)]
    else
      var init := Decimal(n / 10);
      assert (init + [DigitChar(n % 10)])[..|init|] == init;
      init + [DigitChar(n % 10)]
  }

  /** Go's %06d. */
  function Padded(n: nat): (s: string)
    ensures |s| >= 6 && forall c | c in s :: Digit(c)
    ensures Number(s) == n
  {
    ZerosFirst(Decimal(n), 6 - |Decimal(n)|);
    Zeros(6 - |Decimal(n)|) + Decimal(n)
  }

  function Zeros(k: int): (s: string)
    ensures |s| == (if k > 0 then k else 0) && forall c | c in s :: Digit(c)
    ensures Number(s) == 0
  {
    if k <= 0 then ""
    else
      assert (Zeros(k - 1) + "0")[..k - 1] == Zeros(k - 1);
      Zeros(k - 1) + "0"
  }

  lemma {:induction false} ZerosFirst(s: string, k: int)
    requires forall c | c in s :: Digit(c)
    ensures forall c | c in Zeros(k) + s :: Digit(c)
    ensures Number(Zeros(k) + s) == Number(s)
    decreases |s|
  {
    if s == "" {
      assert Zeros(k) + s == Zeros(k);
    } else {
      assert (Zeros(k) + s)[..|Zeros(k) + s| - 1] == Zeros(k) + s[..|s| - 1];
      ZerosFirst(s[..|s| - 1], k);
    }
  }

  /** A number has at most k digits exactly when it is below ten to the k. */
  lemma {:induction false} DecimalLength(n: nat, k: nat)
    requires k >= 1
    ensures |Decimal(n)| <= k <==> n < Pow10(k)
  {
    if n >= 10 && k > 1 {
      DecimalLength(n / 10, k - 1);
    } else if n < 10 && k > 1 {
      assert Pow10(k) >= 10;
    }
  }

  // ---- names ----

  /** Where the i-th received payload is staged. */
  function PayloadSlot(i: nat): string {
    Padded(i) + ".jsonl"
  }

  /** Where a longer copy of a managed prefix is prepared, when `i` slots are in use. */
  function ExtensionSlot(i: nat): string {
    "extension-" + Padded(i)
  }

  /** stagingSlot: the names recovery recognises. */
  predicate StagingSlot(name: string) {
    var digits :=
      if HasSuffix(name, ".jsonl") then TrimSuffix(name, ".jsonl")
      else if HasPrefix(name, "extension-") then TrimPrefix(name, "extension-")
      else "";
    6 <= |digits| <= 19 && forall c | c in digits :: Digit(c)
  }

  lemma ExtensionShape(i: nat)
    ensures !HasSuffix(ExtensionSlot(i), ".jsonl") && HasPrefix(ExtensionSlot(i), "extension-")
    ensures TrimPrefix(ExtensionSlot(i), "extension-") == Padded(i)
  {
    var s := ExtensionSlot(i);
    assert s[|s| - 1] == Padded(i)[|Padded(i)| - 1];
    assert Padded(i)[|Padded(i)| - 1] in Padded(i);
    LastOfSuffix(s, ".jsonl");
  }

  lemma LastOfSuffix(s: string, suf: string)
    requires suf != ""
    ensures HasSuffix(s, suf) ==> s != "" && s[|s| - 1] == suf[|suf| - 1]
  {
  }

  lemma PayloadShape(i: nat)
    ensures HasSuffix(PayloadSlot(i), ".jsonl") && TrimSuffix(PayloadSlot(i), ".jsonl") == Padded(i)
  {
    assert PayloadSlot(i)[|Padded(i)|..] == ".jsonl";
  }

  /** A padded number has six digits, and more only if it needs them. */
  lemma PaddedLength(i: nat, k: nat)
    ensures |Padded(i)| <= k <==> 6 <= k && i < Pow10(k)
  {
    if k >= 1 {
      DecimalLength(i, k);
    }
  }

  /** Recovery recognises the slot of an index exactly when the index has at most 19 digits, so it recognises every
      name a 64-bit index can produce. */
  lemma SlotsRecognised(i: nat)
    ensures StagingSlot(PayloadSlot(i)) <==> i < Pow10(19)
    ensures StagingSlot(ExtensionSlot(i)) <==> i < Pow10(19)
    ensures i <= MAX_INT64 ==> i < Pow10(19)
  {
    hide Padded, Zeros;
    PaddedLength(i, 19);
    PayloadShape(i);
    ExtensionShape(i);
    TenToNineteen();
  }

  /** The slot names recovery recognises, exactly: six to nineteen digits, as a payload or as an extension. */
  lemma SlotNamesExactly(name: string)
    ensures StagingSlot(name) <==> exists digits: string :: Digits(digits) && SlotOf(digits, name)
  {
    hide HasSuffix, HasPrefix, Digits;
    if StagingSlot(name) {
      var digits := if HasSuffix(name, ".jsonl") then TrimSuffix(name, ".jsonl") else TrimPrefix(name, "extension-");
      DigitsOfSlot(name, digits);
    }
    forall digits: string | Digits(digits) && SlotOf(digits, name)
      ensures StagingSlot(name)
    {
      SlotOfDigits(digits, name);
    }
  }

  predicate Digits(s: string) {
    6 <= |s| <= 19 && forall c | c in s :: '0' <= c <= '9'
  }

  predicate SlotOf(digits: string, name: string) {
    name == digits + ".jsonl" || name == "extension-" + digits
  }

  lemma DigitsOfSlot(name: string, digits: string)
    requires StagingSlot(name)
    requires digits == if HasSuffix(name, ".jsonl") then TrimSuffix(name, ".jsonl") else TrimPrefix(name, "extension-")
    ensures Digits(digits) && SlotOf(digits, name)
  {
    assert forall c | c in digits :: Digit(c);
  }

  lemma SlotOfDigits(digits: string, name: string)
    requires Digits(digits) && SlotOf(digits, name)
    ensures StagingSlot(name)
  {
    if name == digits + ".jsonl" {
      assert name[|digits|..] == ".jsonl" && TrimSuffix(name, ".jsonl") == digits;
    } else {
      assert digits[|digits| - 1] in digits && name[|name| - 1] == digits[|digits| - 1];
      LastOfSuffix(name, ".jsonl");
      assert HasPrefix(name, "extension-") && TrimPrefix(name, "extension-") == digits;
    }
  }

  lemma TenToNineteen()
    ensures Pow10(19) == 10_000_000_000_000_000_000
  {
    assert Pow10(5) == 100_000;
    assert Pow10(10) == 10_000_000_000;
    assert Pow10(15) == 1_000_000_000_000_000;
  }

  /** No two slots of a transfer share a name, and none is the lease. */
  lemma SlotsDistinct(i: nat, j: nat)
    ensures PayloadSlot(i) == PayloadSlot(j) ==> i == j
    ensures ExtensionSlot(i) == ExtensionSlot(j) ==> i == j
    ensures PayloadSlot(i) != ExtensionSlot(j)
    ensures PayloadSlot(i) != LEASE && ExtensionSlot(i) != LEASE && !StagingSlot(LEASE)
  {
    hide Padded, Zeros;
    PayloadShape(i);
    PayloadShape(j);
    ExtensionShape(i);
    ExtensionShape(j);
    assert PayloadSlot(i)[0] == Padded(i)[0] && Padded(i)[0] in Padded(i);
  }

  // ---- stage directories ----

  function HexChar(d: nat): char
    requires d < 16
  {
    if d < 10 then ('0' as int + d) as char else ('a' as int + d - 10) as char
  }

  function HexEncode(b: Bytes): (s: string)
    ensures |s| == 2 * |b|
  {
    if b == [] then "" else [HexChar(b[0] as nat / 16), HexChar(b[0] as nat % 16)] + HexEncode(b[1..])
  }

  predicate AnyHex(c: char) {
    Hex(c) || 'A' <= c <= 'F'
  }

  /** stagingName: an even run of 32 hexadecimal digits, all in lower case, after the versioned prefix. */
  predicate StagingName(name: string) {
    HasPrefix(name, STAGING_PREFIX) &&
    var suffix := TrimPrefix(name, STAGING_PREFIX);
    |suffix| == 32 && (forall c | c in suffix :: AnyHex(c)) && suffix == Lower(suffix)
  }

  function HexValue(c: char): nat
    requires Hex(c)
  {
    if Digit(c) then c as nat - '0' as nat else 10 + (c as nat - 'a' as nat)
  }

  lemma HexRound(c: char)
    requires Hex(c)
    ensures HexValue(c) < 16 && HexChar(HexValue(c)) == c
  {
  }

  lemma {:induction false} HexDecode(s: string, n: nat) returns (b: Bytes)
    requires |s| == 2 * n && forall c | c in s :: Hex(c)
    ensures |b| == n && HexEncode(b) == s
  {
    if n == 0 {
      b := [];
    } else {
      var rest := HexDecode(s[2..], n - 1);
      HexRound(s[0]);
      HexRound(s[1]);
      var v := 16 * HexValue(s[0]) + HexValue(s[1]);
      b := [v as byte] + rest;
      assert b[1..] == rest;
      assert s == [s[0], s[1]] + s[2..];
    }
  }

  lemma {:induction false} HexEncoded(b: Bytes)
    ensures forall c | c in HexEncode(b) :: Hex(c)
  {
    if b != [] {
      HexEncoded(b[1..]);
    }
  }

  /** The directory names recovery recognises are exactly those staging makes from sixteen random bytes. */
  lemma StagesRecognised(name: string)
    ensures StagingName(name) <==> exists nonce: Bytes :: |nonce| == 16 && name == STAGING_PREFIX + HexEncode(nonce)
  {
    if StagingName(name) {
      var suffix := TrimPrefix(name, STAGING_PREFIX);
      forall c | c in suffix
        ensures Hex(c)
      {
        var i :| 0 <= i < |suffix| && suffix[i] == c;
        assert Lower(suffix)[i] == LowerChar(c);
      }
      var nonce := HexDecode(suffix, 16);
      assert name == STAGING_PREFIX + suffix;
    }
    if nonce: Bytes :| |nonce| == 16 && name == STAGING_PREFIX + HexEncode(nonce) {
      HexEncoded(nonce);
      var suffix := TrimPrefix(name, STAGING_PREFIX);
      assert suffix == HexEncode(nonce);
      assert forall i | 0 <= i < |suffix| :: suffix[i] in suffix && LowerChar(suffix[i]) == suffix[i];
      assert Lower(suffix) == suffix;
    }
  }
}
