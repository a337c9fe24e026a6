// Identities and file names of the rollout store: internal/session/format.go.

module Format {
  import opened Model

  // ---- strings ----

  predicate HasPrefix(s: string, p: string) {
    p <= s
  }

  predicate HasSuffix(s: string, p: string) {
    |p| <= |s| && s[|s| - |p|..] == p
  }

  function TrimPrefix(s: string, p: string): string {
    if HasPrefix(s, p) then s[|p|..] else s
  }

  function TrimSuffix(s: string, p: string): string {
    if HasSuffix(s, p) then s[..|s| - |p|] else s
  }

  function LowerChar(c: char): char {
    if 'A' <= c <= 'Z' then (c as int + 32) as char else c
  }

  function Lower(s: string): (r: string)
    ensures |r| == |s|
    ensures forall i | 0 <= i < |s| :: r[i] == LowerChar(s[i])
  {
    seq(|s|, i requires 0 <= i < |s| => LowerChar(s[i]))
  }

  predicate Digit(c: char) {
    '0' <= c <= '9'
  }

  predicate Hex(c: char) {
    Digit(c) || 'a' <= c <= 'f'
  }

  /** What follows the last slash. */
  function AfterSlash(p: string): string {
    if p == "" || p[|p| - 1] == '/' then "" else AfterSlash(p[..|p| - 1]) + [p[|p| - 1]]
  }

  /** Go's filepath.Base. */
  function Base(p: string): string {
    if p == "" then "."
    else if p[|p| - 1] == '/' then (if |p| == 1 then "/" else Base(p[..|p| - 1]))
    else AfterSlash(p)
  }

  /** Go's strings.Split(p, "/"). */
  function Components(p: string): (r: seq<string>)
    ensures |r| >= 1
  {
    if p == "" then [""]
    else
      var init := Components(p[..|p| - 1]);
      if p[|p| - 1] == '/' then init + [""]
      else init[..|init| - 1] + [init[|init| - 1] + [p[|p| - 1]]]
  }

  predicate GoodComponent(c: string) {
    c != "" && c != "." && c != ".."
  }

  /** validRelative of home.go: a clean path below the home. */
  predicate ValidRelative(p: string) {
    '\\' !in p && '\0' !in p && forall c | c in Components(p) :: GoodComponent(c)
  }

  lemma {:induction false} AfterSlashJoin(d: string, n: string)
    requires '/' !in n
    ensures AfterSlash(d + "/" + n) == n
  {
    var p := d + "/" + n;
    if n == "" {
      assert p[|p| - 1] == '/';
    } else {
      var m := n[..|n| - 1];
      assert p[..|p| - 1] == d + "/" + m;
      assert forall c | c in m :: c in n;
      AfterSlashJoin(d, m);
      assert n == m + [n[|n| - 1]];
      assert p[|p| - 1] == n[|n| - 1];
      assert n[|n| - 1] in n;
    }
  }

  lemma {:induction false} AfterSlashPlain(n: string)
    requires '/' !in n
    ensures AfterSlash(n) == n
  {
    if n != "" {
      var m := n[..|n| - 1];
      assert forall c | c in m :: c in n;
      AfterSlashPlain(m);
      assert n == m + [n[|n| - 1]];
      assert n[|n| - 1] in n;
    }
  }

  lemma BaseJoin(d: string, n: string)
    requires n != "" && '/' !in n
    ensures Base(d + "/" + n) == n && Base(n) == n
  {
    AfterSlashJoin(d, n);
    AfterSlashPlain(n);
    var p := d + "/" + n;
    assert n[|n| - 1] in n;
    assert p[|p| - 1] == n[|n| - 1];
  }

  lemma {:induction false} NoSlashInBase(p: string)
    ensures Base(p) == "/" || '/' !in Base(p)
  {
    if p != "" && p[|p| - 1] == '/' && |p| != 1 {
      NoSlashInBase(p[..|p| - 1]);
    } else if p != "" && p[|p| - 1] != '/' {
      NoSlashAfterSlash(p);
    }
  }

  lemma {:induction false} NoSlashAfterSlash(p: string)
    ensures '/' !in AfterSlash(p)
  {
    if p != "" && p[|p| - 1] != '/' {
      NoSlashAfterSlash(p[..|p| - 1]);
    }
  }

  lemma {:induction false} ComponentsJoin(d: string, n: string)
    requires '/' !in n
    ensures Components(d + "/" + n) == Components(d) + [n]
  {
    var p := d + "/" + n;
    if n == "" {
      assert p[..|p| - 1] == d;
    } else {
      var m := n[..|n| - 1];
      assert p[..|p| - 1] == d + "/" + m;
      assert forall c | c in m :: c in n;
      ComponentsJoin(d, m);
      assert n == m + [n[|n| - 1]];
      assert p[|p| - 1] == n[|n| - 1];
      assert n[|n| - 1] in n;
    }
  }

  lemma {:induction false} ComponentsPlain(n: string)
    requires '/' !in n
    ensures Components(n) == [n]
  {
    if n != "" {
      var m := n[..|n| - 1];
      assert forall c | c in m :: c in n;
      ComponentsPlain(m);
      assert n == m + [n[|n| - 1]];
      assert n[|n| - 1] in n;
    }
  }

  lemma ValidJoin(d: string, n: string)
    requires ValidRelative(d) && GoodComponent(n)
    requires '/' !in n && '\\' !in n && '\0' !in n
    ensures ValidRelative(d + "/" + n)
  {
    ComponentsJoin(d, n);
  }

  function WithSlashes(parts: seq<string>): string {
    if parts == [] then ""
    else if |parts| == 1 then parts[0]
    else WithSlashes(parts[..|parts| - 1]) + "/" + parts[|parts| - 1]
  }

  /** Neither empty nor a step to the same or the parent directory. */
  predicate PlainPart(c: string) {
    c != "" && c != "." && c != ".." && '/' !in c && '\\' !in c && '\0' !in c
  }

  lemma {:induction false} ComponentsOf(parts: seq<string>)
    requires parts != [] && forall c | c in parts :: '/' !in c
    ensures Components(WithSlashes(parts)) == parts
  {
    hide Components;
    var init, last := parts[..|parts| - 1], parts[|parts| - 1];
    assert parts == init + [last] && last in parts;
    if init == [] {
      ComponentsPlain(last);
    } else {
      assert forall c | c in init :: c in parts;
      ComponentsOf(init);
      ComponentsJoin(WithSlashes(init), last);
    }
  }

  lemma LastLonger(init: seq<string>, last: string, x: string)
    ensures WithSlashes(init + [last + x]) == WithSlashes(init + [last]) + x
  {
    assert (init + [last + x])[..|init|] == init && (init + [last])[..|init|] == init;
    if init != [] {
      assert WithSlashes(init) + "/" + (last + x) == WithSlashes(init) + "/" + last + x;
    }
  }

  lemma OneMorePart(parts: seq<string>)
    requires parts != []
    ensures WithSlashes(parts + [""]) == WithSlashes(parts) + "/"
  {
    assert (parts + [""])[..|parts|] == parts;
    assert WithSlashes(parts) + "/" + "" == WithSlashes(parts) + "/";
  }

  predicate PartsOfPath(parts: seq<string>, p: string) {
    forall c | c in parts :: '/' !in c && forall x | x in c :: x in p
  }

  lemma PartsLonger(init: seq<string>, last: string, q: string, x: char)
    requires PartsOfPath(init + [last], q) && x != '/'
    ensures PartsOfPath(init + [last + [x]], q + [x])
  {
    forall c | c in init + [last + [x]]
      ensures '/' !in c && forall y | y in c :: y in q + [x]
    {
      if c in init {
        assert c in init + [last];
      } else {
        assert last in init + [last];
      }
    }
  }

  lemma PartsMore(parts: seq<string>, q: string)
    requires PartsOfPath(parts, q)
    ensures PartsOfPath(parts + [""], q + "/")
  {
    forall c | c in parts + [""]
      ensures '/' !in c && forall y | y in c :: y in q + "/"
    {
      assert c in parts || c == "";
    }
  }

  lemma {:induction false} ComponentsJoined(p: string)
    ensures WithSlashes(Components(p)) == p && PartsOfPath(Components(p), p)
  {
    if p != "" {
      hide WithSlashes, PartsOfPath;
      var q, x := p[..|p| - 1], p[|p| - 1];
      ComponentsJoined(q);
      assert p == q + [x];
      var parts := Components(q);
      var init, last := parts[..|parts| - 1], parts[|parts| - 1];
      assert parts == init + [last];
      if x == '/' {
        OneMorePart(parts);
        PartsMore(parts, q);
      } else {
        LastLonger(init, last, [x]);
        PartsLonger(init, last, q, x);
      }
    }
  }

  /** Clean paths below the home, exactly: one or more plain parts with a slash between them. */
  lemma ValidRelativeExactly(p: string)
    ensures ValidRelative(p) <==>
            exists parts :: parts != [] && p == WithSlashes(parts) && forall c | c in parts :: PlainPart(c)
  {
    hide Components, WithSlashes;
    ComponentsJoined(p);
    if ValidRelative(p) {
      assert forall c | c in Components(p) :: PlainPart(c);
    }
    forall parts | parts != [] && p == WithSlashes(parts) && forall c | c in parts :: PlainPart(c)
      ensures ValidRelative(p)
    {
      ComponentsOf(parts);
      NoneInParts(parts, '\\');
      NoneInParts(parts, '\0');
    }
  }

  lemma {:induction false} NoneInParts(parts: seq<string>, x: char)
    requires x != '/' && forall c | c in parts :: x !in c
    ensures x !in WithSlashes(parts)
  {
    if |parts| > 1 {
      assert forall c | c in parts[..|parts| - 1] :: c in parts;
      NoneInParts(parts[..|parts| - 1], x);
    }
  }

  // ---- identities ----

  predicate Uuid(s: string) {
    |s| == 36 &&
    forall i | 0 <= i < 36 :: if i == 8 || i == 13 || i == 18 || i == 23 then s[i] == '-' else Hex(s[i])
  }

  /** ParseID: a complete UUID in the text form of RFC 9562, in lower case. */
  function ParseID(value: string): (r: Option<string>)
    ensures r.Some? ==> Uuid(r.value)
  {
    var id := Lower(value);
    if Uuid(id) then Some(id) else None
  }

  lemma ParseIDCanonical(value: string)
    requires Uuid(value)
    ensures ParseID(value) == Some(value)
  {
    assert forall i | 0 <= i < 36 :: LowerChar(value[i]) == value[i];
    assert Lower(value) == value;
  }

  predicate HexDigit(c: char) {
    '0' <= c <= '9' || 'a' <= c <= 'f' || 'A' <= c <= 'F'
  }

  /** The text form: five groups of 8, 4, 4, 4 and 12 hexadecimal digits in either case. */
  predicate Grouped(a: string, b: string, c: string, d: string, e: string) {
    |a| == 8 && |b| == |c| == |d| == 4 && |e| == 12 && forall x | x in a + b + c + d + e :: HexDigit(x)
  }

  /** A complete UUID in either case is accepted, and nothing else; its digits come back in lower case. */
  lemma ParseIDExactly(value: string)
    ensures ParseID(value).Some? <==>
            exists a, b, c, d, e :: Grouped(a, b, c, d, e) && value == a + "-" + b + "-" + c + "-" + d + "-" + e
    ensures ParseID(value).Some? ==>
              |ParseID(value).value| == |value| && forall i | 0 <= i < |value| ::
                ParseID(value).value[i] == if 'A' <= value[i] <= 'F' then (value[i] as int + 32) as char else value[i]
  {
    if ParseID(value).Some? {
      var a, b, c, d, e := ParsedGroups(value);
    } else {
      forall a, b, c, d, e | Grouped(a, b, c, d, e)
        ensures value != a + "-" + b + "-" + c + "-" + d + "-" + e
      {
        GroupsParse(a, b, c, d, e);
      }
    }
  }

  lemma ParsedGroups(value: string) returns (a: string, b: string, c: string, d: string, e: string)
    requires ParseID(value).Some?
    ensures Grouped(a, b, c, d, e) && value == a + "-" + b + "-" + c + "-" + d + "-" + e
  {
    var id := Lower(value);
    forall i | 0 <= i < 36
      ensures if i == 8 || i == 13 || i == 18 || i == 23 then value[i] == '-' else HexDigit(value[i])
    {
      assert id[i] == LowerChar(value[i]);
    }
    a, b, c, d, e := value[..8], value[9..13], value[14..18], value[19..23], value[24..];
    GroupsJoin(value);
    forall x | x in a + b + c + d + e
      ensures HexDigit(x)
    {
      assert x in a || x in b || x in c || x in d || x in e;
    }
  }

  lemma GroupsJoin(s: string)
    requires |s| == 36 && s[8] == s[13] == s[18] == s[23] == '-'
    ensures s == s[..8] + "-" + s[9..13] + "-" + s[14..18] + "-" + s[19..23] + "-" + s[24..]
  {
  }

  lemma GroupsParse(a: string, b: string, c: string, d: string, e: string)
    requires Grouped(a, b, c, d, e)
    ensures ParseID(a + "-" + b + "-" + c + "-" + d + "-" + e).Some?
  {
    var s, all := a + "-" + b + "-" + c + "-" + d + "-" + e, a + b + c + d + e;
    forall i | 0 <= i < 36
      ensures var x := Lower(s)[i]; if i == 8 || i == 13 || i == 18 || i == 23 then x == '-' else Hex(x)
    {
      if !(i == 8 || i == 13 || i == 18 || i == 23) {
        var k := i - (if i < 8 then 0 else if i < 13 then 1 else if i < 18 then 2 else if i < 23 then 3 else 4);
        assert s[i] == all[k] && all[k] in all;
      }
    }
  }

  /** An identity in the form ParseID returns. */
  predicate Canonical(id: string) {
    ParseID(id) == Some(id)
  }

  const PREREQUISITE_ROOT := "archived_sessions/.hcorral-history/"

  predicate PrerequisitePath(path: string) {
    HasPrefix(path, PREREQUISITE_ROOT)
  }

  predicate ManagedPath(path: string) {
    HasPrefix(path, "sessions/") || HasPrefix(path, "archived_sessions/")
  }

  function Number(s: string): nat
    requires forall c | c in s :: Digit(c)
  {
    if s == "" then 0
    else
      assert Digit(s[|s| - 1]);
      10 * Number(s[..|s| - 1]) + (s[|s| - 1] as int - '0' as int)
  }

  function DaysIn(year: nat, month: nat): nat {
    if month == 2 then
      if year % 4 == 0 && (year % 100 != 0 || year % 400 == 0) then 29 else 28
    else if month in {4, 6, 9, 11} then 30
    else 31
  }

  predicate Separator(i: nat) {
    i == 4 || i == 7 || i == 10 || i == 13 || i == 16
  }

  /** Every position holds a digit or its separator: 2006-01-02T15-04-05. */
  predicate StampShape(s: string) {
    |s| == 19 && s[4] == s[7] == s[13] == s[16] == '-' && s[10] == 'T' &&
    forall i | 0 <= i < 19 && !Separator(i) :: Digit(s[i])
  }

  /** The timestamps Go's time.Parse accepts for that layout. */
  predicate ValidStamp(s: string) {
    StampShape(s) &&
    var year, month, day := Number(s[..4]), Number(s[5..7]), Number(s[8..10]);
    1 <= month <= 12 && 1 <= day <= DaysIn(year, month) &&
    Number(s[11..13]) < 24 && Number(s[14..16]) < 60 && Number(s[17..19]) < 60
  }

  // ---- timestamps, by what they stand for ----

  /** The last k decimal digits of a number. */
  function Digits(n: nat, k: nat): (s: string)
    ensures |s| == k && forall c | c in s :: Digit(c)
  {
    if k == 0 then "" else Digits(n / 10, k - 1) + [('0' as int + n % 10) as char]
  }

  function Pow10(k: nat): (p: nat)
    ensures p >= 1
  {
    if k == 0 then 1 else 10 * Pow10(k - 1)
  }

  lemma {:induction false} DigitsBack(n: nat, k: nat)
    requires n < Pow10(k)
    ensures Number(Digits(n, k)) == n
  {
    if k > 0 {
      DigitsBack(n / 10, k - 1);
      assert Digits(n, k)[..k - 1] == Digits(n / 10, k - 1);
    }
  }

  lemma OneDigit(init: string, c: char)
    requires (forall x | x in init :: Digit(x)) && Digit(c)
    ensures forall x | x in init + [c] :: Digit(x)
    ensures var n := Number(init + [c]);
            n / 10 == Number(init) && n % 10 == c as int - '0' as int
  {
    assert (init + [c])[..|init|] == init;
  }

  lemma {:induction false} NumberBack(s: string)
    requires forall c | c in s :: Digit(c)
    ensures Number(s) < Pow10(|s|) && Digits(Number(s), |s|) == s
  {
    if s != "" {
      var init, c := s[..|s| - 1], s[|s| - 1];
      assert c in s && forall x | x in init :: x in s;
      NumberBack(init);
      OneDigit(init, c);
      assert s == init + [c];
      hide Number;
      assert Digits(Number(s), |s|) == Digits(Number(init), |init|) + [c];
    }
  }

  /** The days of each month, with leap years of the Gregorian calendar. */
  function MonthDays(year: nat, month: nat): (d: nat)
    requires 1 <= month <= 12
    ensures 28 <= d <= 31
  {
    var leap := (year % 4 == 0 && year % 100 != 0) || year % 400 == 0;
    [31, if leap then 29 else 28, 31, 30, 31, 30, 31, 31, 30, 31, 30, 31][month - 1]
  }

  datatype Moment = Moment(year: nat, month: nat, day: nat, hour: nat, minute: nat, second: nat)

  predicate OnCalendar(m: Moment) {
    m.year < 10000 && 1 <= m.month <= 12 && 1 <= m.day <= MonthDays(m.year, m.month) && m.hour < 24 && m.minute < 60 &&
    m.second < 60
  }

  function Written(m: Moment): string {
    Digits(m.year, 4) + "-" + Digits(m.month, 2) + "-" + Digits(m.day, 2) + "T" + Digits(m.hour, 2) + "-" +
    Digits(m.minute, 2) + "-" + Digits(m.second, 2)
  }

  lemma LeapYears(year: nat)
    ensures year % 400 == 0 ==> year % 4 == 0
  {
    if year % 400 == 0 {
      assert year == 4 * (100 * (year / 400));
    }
  }

  lemma SameDays(year: nat, month: nat)
    requires 1 <= month <= 12
    ensures DaysIn(year, month) == MonthDays(year, month)
  {
    LeapYears(year);
    var leap := (year % 4 == 0 && year % 100 != 0) || year % 400 == 0;
    var days := [31, if leap then 29 else 28, 31, 30, 31, 30, 31, 31, 30, 31, 30, 31];
    assert days[0] == days[2] == days[4] == days[6] == days[7] == days[9] == days[11] == 31;
    assert days[3] == days[5] == days[8] == days[10] == 30 && days[1] == if leap then 29 else 28;
  }

  lemma Powers()
    ensures Pow10(2) == 100 && Pow10(4) == 10000
  {
  }

  lemma StampFields(s: string)
    requires StampShape(s)
    ensures |s| == 19
    ensures forall c | c in s[..4] :: Digit(c)
    ensures forall c | c in s[5..7] :: Digit(c)
    ensures forall c | c in s[8..10] :: Digit(c)
    ensures forall c | c in s[11..13] :: Digit(c)
    ensures forall c | c in s[14..16] :: Digit(c)
    ensures forall c | c in s[17..19] :: Digit(c)
    ensures s == s[..4] + "-" + s[5..7] + "-" + s[8..10] + "T" + s[11..13] + "-" + s[14..16] + "-" + s[17..19]
  {
    forall i | 0 <= i < 19 && !Separator(i)
      ensures Digit(s[i])
    {
    }
  }

  lemma StampMeans(s: string) returns (m: Moment)
    requires ValidStamp(s)
    ensures OnCalendar(m) && s == Written(m)
  {
    hide Number, DaysIn, MonthDays, Digits, Pow10, StampShape;
    StampFields(s);
    NumberBack(s[..4]);
    NumberBack(s[5..7]);
    NumberBack(s[8..10]);
    NumberBack(s[11..13]);
    NumberBack(s[14..16]);
    NumberBack(s[17..19]);
    Powers();
    m := Moment(Number(s[..4]), Number(s[5..7]), Number(s[8..10]), Number(s[11..13]), Number(s[14..16]),
                Number(s[17..19]));
    SameDays(m.year, m.month);
  }

  lemma WrittenFields(m: Moment)
    ensures var s := Written(m);
            StampShape(s) && s[..4] == Digits(m.year, 4) && s[5..7] == Digits(m.month, 2) &&
            s[8..10] == Digits(m.day, 2) && s[11..13] == Digits(m.hour, 2) && s[14..16] == Digits(m.minute, 2) &&
            s[17..19] == Digits(m.second, 2)
  {
    hide Digits;
    var s := Written(m);
    assert s[..4] == Digits(m.year, 4) && s[5..7] == Digits(m.month, 2) && s[8..10] == Digits(m.day, 2);
    assert s[11..13] == Digits(m.hour, 2) && s[14..16] == Digits(m.minute, 2) && s[17..19] == Digits(m.second, 2);
    forall i | 0 <= i < 19 && !Separator(i)
      ensures Digit(s[i])
    {
      if i < 4 {
        assert s[i] == s[..4][i];
      } else if i < 7 {
        assert s[i] == s[5..7][i - 5];
      } else if i < 10 {
        assert s[i] == s[8..10][i - 8];
      } else if i < 13 {
        assert s[i] == s[11..13][i - 11];
      } else if i < 16 {
        assert s[i] == s[14..16][i - 14];
      } else {
        assert s[i] == s[17..19][i - 17];
      }
    }
  }

  lemma WrittenValid(m: Moment)
    requires OnCalendar(m)
    ensures ValidStamp(Written(m))
  {
    hide Number, DaysIn, MonthDays, Digits, Pow10, StampShape, Written;
    WrittenFields(m);
    Powers();
    DigitsBack(m.year, 4);
    DigitsBack(m.month, 2);
    DigitsBack(m.day, 2);
    DigitsBack(m.hour, 2);
    DigitsBack(m.minute, 2);
    DigitsBack(m.second, 2);
    SameDays(m.year, m.month);
  }

  /** Timestamps in names, exactly: the moments of the calendar, written 2006-01-02T15-04-05. */
  lemma StampExactly(s: string)
    ensures ValidStamp(s) <==> exists m :: OnCalendar(m) && s == Written(m)
  {
    hide ValidStamp, OnCalendar, Written;
    if ValidStamp(s) {
      var m := StampMeans(s);
    }
    forall m | OnCalendar(m) && s == Written(m)
      ensures ValidStamp(s)
    {
      WrittenValid(m);
    }
  }

  /** Position of the first underscore, or the length. */
  function Underscore(s: string): (n: nat)
    ensures n <= |s|
    ensures n < |s| ==> s[n] == '_'
    ensures '_' !in s[..n]
  {
    if s == "" || s[0] == '_' then 0
    else
      var n := 1 + Underscore(s[1..]);
      assert s[..n] == [s[0]] + s[1..][..n - 1];
      n
  }

  /** The identities in rollout-<time>-<thread>[_<rollout>]. */
  function ParseCore(path: string, core: string): Option<Candidate> {
    if |core| < 20 || core[19] != '-' || !ValidStamp(core[..19]) then None
    else
      var ids := core[20..];
      var cut := Underscore(ids);
      var rollout := if cut < |ids| then ids[cut + 1..] else ids;
      match (ParseID(ids[..cut]), ParseID(rollout))
      case (Some(t), Some(r)) => Some(Candidate(path, t, r))
      case _ => None
  }

  function ParseName(path: string): Option<Candidate> {
    var name := TrimSuffix(Base(path), ".zst");
    if !HasPrefix(name, "rollout-") || !HasSuffix(name, ".jsonl") then None
    else ParseCore(path, TrimSuffix(TrimPrefix(name, "rollout-"), ".jsonl"))
  }

  function Slashes(s: string): (r: string)
    ensures |r| == |s|
    ensures forall i | 0 <= i < |s| :: r[i] == if s[i] == '-' then '/' else s[i]
  {
    seq(|s|, i requires 0 <= i < |s| => if s[i] == '-' then '/' else s[i])
  }

  /** The file name a rollout is published under, with its identities. */
  function PublicationName(w: World, file: File): Result<(string, string, string)> {
    var name := Base(TrimSuffix(file.path, ".zst"));
    match ParseName(name)
    case Some(c) => Ok((name, c.thread, c.rollout))
    case None =>
      if file.meta.mode != "legacy" || w.stamp(file.meta.timestamp).None? then Err(BadPath)
      else
        var made := "rollout-" + w.stamp(file.meta.timestamp).value + "-" + file.thread + ".jsonl";
        match ParseName(made)
        case Some(c) => Ok((made, c.thread, c.rollout))
        case None => Ok((made, "", ""))
  }

  function PublicationPath(w: World, file: File): Result<string> {
    var (name, thread, rollout) :- PublicationName(w, file);
    if thread != file.thread || rollout != file.rollout then Err(BadPath)
    else if file.prefix then Ok(PREREQUISITE_ROOT + file.rollout + "/" + name)
    else if HasPrefix(file.path, "archived_sessions/") then Ok("archived_sessions/" + name)
    else
      var rest := TrimPrefix(name, "rollout-");
      if |rest| < 10 then Err(BadPath)   // Go would panic; a parsed name is never this short
      else Ok("sessions/" + Slashes(rest[..10]) + "/" + name)
  }

  // ---- published paths ----

  /** The characters of a parsed rollout name. */
  predicate NameChar(c: char) {
    Digit(c) || 'a' <= c <= 'z' || 'A' <= c <= 'Z' || c == '-' || c == '_' || c == '.'
  }

  lemma UuidChars(s: string)
    requires ParseID(s).Some?
    ensures |s| == 36 && forall c | c in s :: NameChar(c) && c != '.' && c != '_'
  {
    forall i | 0 <= i < |s|
      ensures NameChar(s[i]) && s[i] != '.' && s[i] != '_'
    {
      assert Lower(s)[i] == LowerChar(s[i]);
    }
  }

  lemma CoreChars(path: string, core: string)
    requires ParseCore(path, core).Some?
    ensures |core| >= 56 && forall c | c in core :: NameChar(c)
  {
    hide Number, DaysIn, Lower;
    var ids := core[20..];
    var cut := Underscore(ids);
    UuidChars(ids[..cut]);
    if cut < |ids| {
      UuidChars(ids[cut + 1..]);
      assert ids == ids[..cut] + ['_'] + ids[cut + 1..];
    } else {
      assert ids == ids[..cut];
    }
    assert core == core[..19] + ['-'] + ids;
    forall i | 0 <= i < 19
      ensures NameChar(core[i])
    {
      assert core[..19][i] == core[i];
      if !Separator(i) {
        assert Digit(core[..19][i]);
      }
    }
  }

  /** Cutting a prefix and then a suffix off. */
  lemma Sandwich(name: string, pre: string, suf: string)
    requires HasPrefix(name, pre) && HasSuffix(name, suf)
    requires |TrimSuffix(TrimPrefix(name, pre), suf)| >= |suf|
    ensures name == pre + TrimSuffix(TrimPrefix(name, pre), suf) + suf
  {
    var rest := name[|pre|..];
    assert rest[|rest| - |suf|..] == name[|name| - |suf|..];
    assert name == pre + rest;
  }

  lemma ParsedCore(name: string)
    requires '/' !in name && !HasSuffix(name, ".zst")
    requires ParseName(name).Some?
    ensures HasPrefix(name, "rollout-") && HasSuffix(name, ".jsonl")
    ensures ParseCore(name, TrimSuffix(TrimPrefix(name, "rollout-"), ".jsonl")).Some?
  {
    if name != "" {
      BaseJoin("", name);
    }
  }

  lemma NotCompressed(name: string)
    requires HasSuffix(name, ".jsonl")
    ensures !HasSuffix(name, ".zst") && TrimSuffix(name, ".zst") == name
  {
    assert name[|name| - 1] == name[|name| - 6..][5] == 'l';
    assert |name| >= 4 && name[|name| - 1] == name[|name| - 4..][3];
  }

  lemma CoreStamp(path: string, core: string)
    requires ParseCore(path, core).Some?
    ensures |core| >= 20 && ValidStamp(core[..19])
  {
    hide ValidStamp, ParseID;
  }

  lemma CoreName(name: string, core: string, pre: string, suf: string)
    requires ParseCore(name, core).Some? && name == pre + core + suf
    requires |pre| == 8 && |suf| == 6 && forall c | c in pre + suf :: NameChar(c)
    ensures |name| >= 70 && name[8..27] == core[..19] && ValidStamp(name[8..27])
    ensures forall c | c in name :: NameChar(c)
  {
    hide ParseCore, ValidStamp, NameChar;
    CoreStamp(name, core);
    CoreChars(name, core);
    assert forall c | c in pre :: c in pre + suf;
    assert forall c | c in suf :: c in pre + suf;
  }

  /** A parsed file name without directory or compression suffix. */
  lemma CanonicalName(name: string)
    requires '/' !in name && HasSuffix(name, ".jsonl")
    requires ParseName(name).Some?
    ensures |name| >= 70 && HasPrefix(name, "rollout-")
    ensures forall c | c in name :: NameChar(c)
    ensures ValidStamp(TrimPrefix(name, "rollout-")[..19])
  {
    hide ParseName, Base, ParseCore;
    NotCompressed(name);
    ParsedCore(name);
    SplitName(name, "rollout-", ".jsonl");
  }

  lemma SplitName(name: string, pre: string, suf: string)
    requires HasPrefix(name, pre) && HasSuffix(name, suf)
    requires |pre| == 8 && |suf| == 6 && forall c | c in pre + suf :: NameChar(c)
    requires ParseCore(name, TrimSuffix(TrimPrefix(name, pre), suf)).Some?
    ensures |name| >= 70 && ValidStamp(TrimPrefix(name, pre)[..19])
    ensures forall c | c in name :: NameChar(c)
  {
    var core := TrimSuffix(TrimPrefix(name, pre), suf);
    CoreChars(name, core);
    Sandwich(name, pre, suf);
    CoreName(name, core, pre, suf);
    assert TrimPrefix(name, pre)[..19] == name[8..27];
  }

  /** Parsing looks at the last path component only. */
  lemma ParseBelow(d: string, name: string)
    requires name != "" && '/' !in name && ParseName(name).Some?
    ensures ParseName(d + "/" + name) ==
            Some(Candidate(d + "/" + name, ParseName(name).value.thread, ParseName(name).value.rollout))
  {
    BaseJoin(d, name);
  }

  lemma DigitsGood(s: string)
    requires s != "" && forall c | c in s :: Digit(c)
    ensures GoodComponent(s) && '/' !in s && '\\' !in s && '\0' !in s
  {
    assert s[0] in s;
  }

  /** A date directory: root/2006/01/02. */
  lemma DateJoin(root: string, y: string, m: string, d: string)
    requires ValidRelative(root)
    requires y != "" && m != "" && d != ""
    requires forall c | c in y + m + d :: Digit(c)
    ensures ValidRelative(root + "/" + y + "/" + m + "/" + d)
  {
    assert forall c | c in y :: c in y + m + d;
    assert forall c | c in m :: c in y + m + d;
    assert forall c | c in d :: c in y + m + d;
    DigitsGood(y);
    DigitsGood(m);
    DigitsGood(d);
    ValidJoin(root, y);
    ValidJoin(root + "/" + y, m);
    ValidJoin(root + "/" + y + "/" + m, d);
  }

  lemma StampDate(stamp: string)
    requires StampShape(stamp)
    ensures forall c | c in stamp[..4] + stamp[5..7] + stamp[8..10] :: Digit(c)
    ensures Slashes(stamp[..10]) == stamp[..4] + "/" + stamp[5..7] + "/" + stamp[8..10]
  {
    assert forall i | 0 <= i < 10 && i != 4 && i != 7 :: !Separator(i) && Digit(stamp[i]);
  }

  lemma DateDirectory(rest: string)
    requires |rest| >= 19 && ValidStamp(rest[..19])
    ensures ValidRelative("sessions/" + Slashes(rest[..10]))
  {
    var stamp := rest[..19];
    StampDate(stamp);
    var root: string := "sessions";
    PlainDirectory(root);
    DateJoin(root, stamp[..4], stamp[5..7], stamp[8..10]);
    assert rest[..10] == stamp[..10];
    assert "sessions/" == root + "/";
    assert "sessions/" + Slashes(rest[..10]) == root + "/" + stamp[..4] + "/" + stamp[5..7] + "/" + stamp[8..10];
  }

  lemma PlainDirectory(root: string)
    requires GoodComponent(root) && forall c | c in root :: NameChar(c)
    ensures ValidRelative(root)
  {
    ComponentsPlain(root);
  }

  /** The directory a publication path adds its file name to. */
  function Directory(file: File, name: string): string
    requires |TrimPrefix(name, "rollout-")| >= 10
  {
    if file.prefix then "archived_sessions/.hcorral-history/" + file.rollout
    else if HasPrefix(file.path, "archived_sessions/") then "archived_sessions"
    else "sessions/" + Slashes(TrimPrefix(name, "rollout-")[..10])
  }

  lemma HistoryRoot()
    ensures ValidRelative("archived_sessions/.hcorral-history")
  {
    hide Components, ValidRelative;
    PlainDirectory("archived_sessions");
    GoodPart(".hcorral-history");
    ValidJoin("archived_sessions", ".hcorral-history");
    assert "archived_sessions" + "/" + ".hcorral-history" == "archived_sessions/.hcorral-history";
  }

  lemma GoodPart(c: string)
    requires GoodComponent(c) && forall x | x in c :: NameChar(x)
    ensures '/' !in c && '\\' !in c && '\0' !in c
  {
  }

  lemma HistoryDirectory(rollout: string)
    requires Uuid(rollout)
    ensures ValidRelative("archived_sessions/.hcorral-history/" + rollout)
  {
    hide Components, ValidRelative;
    HistoryRoot();
    UuidPart(rollout);
    var root: string := "archived_sessions/.hcorral-history";
    ValidJoin(root, rollout);
    assert "archived_sessions/.hcorral-history/" == root + "/";
  }

  lemma UuidPart(rollout: string)
    requires Uuid(rollout)
    ensures GoodComponent(rollout) && '/' !in rollout && '\\' !in rollout && '\0' !in rollout
  {
    ParseIDCanonical(rollout);
    UuidChars(rollout);
  }

  lemma DirectoryValid(file: File, name: string)
    requires Uuid(file.rollout)
    requires |TrimPrefix(name, "rollout-")| >= 19 && ValidStamp(TrimPrefix(name, "rollout-")[..19])
    ensures ValidRelative(Directory(file, name))
  {
    if file.prefix {
      HistoryDirectory(file.rollout);
    } else if !HasPrefix(file.path, "archived_sessions/") {
      DateDirectory(TrimPrefix(name, "rollout-"));
    } else {
      PlainDirectory("archived_sessions");
    }
  }

  /** The name part of a successful PublicationPath is canonical and carries the file's identities. */
  lemma NamePart(w: World, file: File)
    requires ClockFormats(w) && Canonical(file.thread) && HasSuffix(file.path, ".jsonl")
    requires PublicationPath(w, file).Ok?
    ensures var n := PublicationName(w, file);
            n.Ok? && CleanName(n.value.0) &&
            ParseName(n.value.0).value.thread == file.thread && ParseName(n.value.0).value.rollout == file.rollout
  {
    hide Base, ParseCore, Lower;
    NotCompressed(file.path);
    var name := Base(file.path);
    if ParseName(name).Some? {
      ParsedName(file.path);
    } else {
      MadeName(w.stamp(file.meta.timestamp).value, file.thread);
    }
  }

  /** A parsed file name without directory or compression suffix. */
  predicate CleanName(n: string) {
    n != "" && '/' !in n && HasSuffix(n, ".jsonl") && ParseName(n).Some?
  }

  lemma BaseOfSlash(p: string)
    requires ParseName(Base(p)).Some?
    ensures Base(p) != "/"
  {
  }

  lemma ParsedName(p: string)
    requires HasSuffix(p, ".jsonl") && ParseName(Base(p)).Some?
    ensures CleanName(Base(p))
  {
    hide ParseName, Base, ParseCore;
    var name := Base(p);
    NoSlashInBase(p);
    BaseOfSlash(p);
    BaseSuffix(p, ".jsonl");
  }

  lemma MadeName(stamp: string, thread: string)
    requires '/' !in stamp && Canonical(thread)
    ensures var made := "rollout-" + stamp + "-" + thread + ".jsonl";
            made != "" && '/' !in made && HasSuffix(made, ".jsonl")
    ensures thread != ""
  {
    UuidChars(thread);
    var made := "rollout-" + stamp + "-" + thread + ".jsonl";
    assert made[|made| - 6..] == ".jsonl";
    assert '/' !in "rollout-" && '/' !in "-" && '/' !in ".jsonl";
    assert '/' !in thread;
  }

  lemma {:induction false} NoUnderscore(s: string)
    requires '_' !in s
    ensures Underscore(s) == |s|
  {
    if s != "" {
      assert s[0] in s && forall c | c in s[1..] :: c in s;
      NoUnderscore(s[1..]);
    }
  }

  lemma MadeCore(path: string, stamp: string, id: string)
    requires ValidStamp(stamp) && Canonical(id)
    ensures ParseCore(path, stamp + "-" + id) == Some(Candidate(path, id, id))
  {
    hide DaysIn, Number, Lower;
    UuidChars(id);
    var core := stamp + "-" + id;
    assert core[..19] == stamp && core[20..] == id;
    NoUnderscore(id);
    assert id[..|id|] == id;
  }

  /** The name made for a legacy rollout carries its thread. */
  lemma MadeParses(stamp: string, id: string)
    requires ValidStamp(stamp) && '/' !in stamp && Canonical(id)
    ensures var made := "rollout-" + stamp + "-" + id + ".jsonl"; ParseName(made) == Some(Candidate(made, id, id))
  {
    hide ParseCore, ValidStamp, AfterSlash;
    var made, core := "rollout-" + stamp + "-" + id + ".jsonl", stamp + "-" + id;
    MadeName(stamp, id);
    AfterSlashPlain(made);
    NotCompressed(made);
    assert made == "rollout-" + (core + ".jsonl");
    assert made[8..] == core + ".jsonl";
    assert (core + ".jsonl")[|core|..] == ".jsonl" && (core + ".jsonl")[..|core|] == core;
    MadeCore(made, stamp, id);
  }

  lemma BaseSuffix(p: string, suf: string)
    requires HasSuffix(p, suf) && suf != "" && '/' !in suf
    ensures HasSuffix(Base(p), suf)
  {
    assert p[|p| - 1] == suf[|suf| - 1];
    assert Base(p) == AfterSlash(p);
    TailOfAfterSlash(p, |suf|);
  }

  /** The last k characters of a path, when none is a slash, are the last of its last component. */
  lemma {:induction false} TailOfAfterSlash(p: string, k: nat)
    requires k <= |p| && '/' !in p[|p| - k..]
    ensures k <= |AfterSlash(p)| && AfterSlash(p)[|AfterSlash(p)| - k..] == p[|p| - k..]
  {
    if k > 0 {
      var q := p[..|p| - 1];
      assert p[|p| - k..] == q[|q| - (k - 1)..] + [p[|p| - 1]];
      assert p[|p| - 1] in p[|p| - k..];
      TailOfAfterSlash(q, k - 1);
      var a := AfterSlash(q);
      assert AfterSlash(p) == a + [p[|p| - 1]];
      assert AfterSlash(p)[|AfterSlash(p)| - k..] == a[|a| - (k - 1)..] + [p[|p| - 1]];
    }
  }

  /** The parts of a published path. */
  lemma PublicationParts(w: World, file: File)
    requires ClockFormats(w) && Canonical(file.thread) && HasSuffix(file.path, ".jsonl")
    requires PublicationPath(w, file).Ok?
    ensures PublicationName(w, file).Ok?
    ensures var p, name := PublicationPath(w, file).value, PublicationName(w, file).value.0;
            CleanName(name) && ParseName(name).value.thread == file.thread &&
            ParseName(name).value.rollout == file.rollout &&
            PartsOf(file, p, name)
  {
    NamePart(w, file);
    var p, name := PublicationPath(w, file).value, PublicationName(w, file).value.0;
    ParseIDFixed(name);
    NameParts(file, name);
    PathJoin(w, file, p, name);
  }

  predicate PartsOf(file: File, p: string, name: string) {
    |name| >= 70 && HasPrefix(name, "rollout-") && p == Directory(file, name) + "/" + name &&
    ValidRelative(Directory(file, name)) && (forall c | c in name :: NameChar(c))
  }

  lemma NameParts(file: File, name: string)
    requires CleanName(name) && Uuid(file.rollout)
    ensures |name| >= 70 && PartsOf(file, Directory(file, name) + "/" + name, name)
  {
    CanonicalName(name);
    DirectoryValid(file, name);
  }

  lemma PathJoin(w: World, file: File, p: string, name: string)
    requires PublicationPath(w, file) == Ok(p) && PublicationName(w, file).value.0 == name
    requires |name| >= 70 && HasPrefix(name, "rollout-")
    ensures p == Directory(file, name) + "/" + name
  {
    hide PublicationName;
  }

  lemma ParseIDFixed(name: string)
    requires ParseName(name).Some?
    ensures Uuid(ParseName(name).value.thread) && Uuid(ParseName(name).value.rollout)
  {
  }

  /** A published path is managed storage, names the file's own identities, tells prerequisites from
      conversations, and publishing from it again leads to it again. */
  lemma PublicationPathFacts(w: World, file: File)
    requires ClockFormats(w) && Canonical(file.thread) && HasSuffix(file.path, ".jsonl")
    requires PublicationPath(w, file).Ok?
    ensures var p := PublicationPath(w, file).value;
            ParseName(p) == Some(Candidate(p, file.thread, file.rollout)) &&
            (PrerequisitePath(p) <==> file.prefix) &&
            ValidRelative(p) && ManagedPath(p) && HasSuffix(p, ".jsonl") &&
            (HasPrefix(p, "archived_sessions/") <==> file.prefix || HasPrefix(file.path, "archived_sessions/")) &&
            PublicationPath(w, file.(path := p)) == Ok(p)
  {
    hide Base, ParseName, PublicationName, Components, ValidRelative, Lower, PublicationPath;
    PublicationParts(w, file);
    assert PublicationName(w, file).Ok?;
    var p, name := PublicationPath(w, file).value, PublicationName(w, file).value.0;
    var d := Directory(file, name);
    ParseBelow(d, name);
    assert GoodComponent(name) by {
      assert name[0] == 'r';
    }
    ValidJoin(d, name);
    JoinSuffix(d, name, ".jsonl");
    PathKind(file, name, p);
    PublishAgain(w, file, d, name);
  }

  lemma JoinSuffix(d: string, name: string, suf: string)
    requires HasSuffix(name, suf)
    ensures HasSuffix(d + "/" + name, suf)
  {
    var p := d + "/" + name;
    assert p[|p| - |suf|..] == name[|name| - |suf|..];
  }

  lemma SameName(w: World, file: File, d: string, name: string)
    requires CleanName(name) && HasSuffix(d + "/" + name, ".jsonl")
    ensures PublicationName(w, file.(path := d + "/" + name)) ==
            Ok((name, ParseName(name).value.thread, ParseName(name).value.rollout))
  {
    hide ParseName;
    NotCompressed(d + "/" + name);
    BaseJoin(d, name);
  }

  lemma PublishAgain(w: World, file: File, d: string, name: string)
    requires CleanName(name) && PublicationPath(w, file) == Ok(d + "/" + name)
    requires PublicationName(w, file).Ok? && PublicationName(w, file).value.0 == name
    requires ParseName(name).value.thread == file.thread && ParseName(name).value.rollout == file.rollout
    requires HasPrefix(d + "/" + name, "archived_sessions/") <==>
              file.prefix || HasPrefix(file.path, "archived_sessions/")
    ensures PublicationPath(w, file.(path := d + "/" + name)) == Ok(d + "/" + name)
  {
    hide ParseName;
    JoinSuffix(d, name, ".jsonl");
    SameName(w, file, d, name);
  }

  /** The leading directory tells what a published path is. */
  lemma PathKind(file: File, name: string, p: string)
    requires |name| >= 27 && HasPrefix(name, "rollout-")
    requires p == Directory(file, name) + "/" + name
    ensures PrerequisitePath(p) <==> file.prefix
    ensures ManagedPath(p)
    ensures HasPrefix(p, "archived_sessions/") <==> file.prefix || HasPrefix(file.path, "archived_sessions/")
  {
    if file.prefix {
      assert p == PREREQUISITE_ROOT + file.rollout + "/" + name;
      assert PREREQUISITE_ROOT <= p;
      assert p[..18] == PREREQUISITE_ROOT[..18] == "archived_sessions/";
    } else if HasPrefix(file.path, "archived_sessions/") {
      assert p == "archived_sessions/" + name;
      assert p[18] == 'r' && PREREQUISITE_ROOT[18] == '.';
    } else {
      assert p[..9] == "sessions/";
      assert p[0] == 's' && PREREQUISITE_ROOT[0] == 'a' && "archived_sessions/"[0] == 'a';
    }
  }

  // ---- what is published, and where ----

  /** The name of a published file carries its identities: the one it has, or for a legacy rollout under another name
      the one made from its timestamp and thread. */
  predicate PublishedName(w: World, file: File, name: string) {
    ParseName(name) == Some(Candidate(name, file.thread, file.rollout)) &&
    (name == Base(file.path) ||
     (ParseName(Base(file.path)).None? && file.meta.mode == "legacy" && w.stamp(file.meta.timestamp).Some? &&
      name == "rollout-" + w.stamp(file.meta.timestamp).value + "-" + file.thread + ".jsonl"))
  }

  /** Below the prerequisite root by rollout, in the archive, or by the date in the name. */
  function PublishedAt(file: File, name: string): string
    requires |name| >= 18
  {
    if file.prefix then "archived_sessions/.hcorral-history/" + file.rollout + "/" + name
    else if HasPrefix(file.path, "archived_sessions/") then "archived_sessions/" + name
    else "sessions/" + name[8..12] + "/" + name[13..15] + "/" + name[16..18] + "/" + name
  }

  /** Publication paths, exactly: a file has one if and only if its name carries its identities, or it is a legacy file
      for which such a name can be made. */
  lemma PublicationExactly(w: World, file: File)
    requires ClockFormats(w) && Canonical(file.thread) && HasSuffix(file.path, ".jsonl")
    ensures PublicationPath(w, file).Ok? <==> exists name :: PublishedName(w, file, name)
    ensures forall name | PublishedName(w, file, name) ::
              |name| >= 18 && PublicationPath(w, file) == Ok(PublishedAt(file, name))
  {
    hide Base, ParseName, Lower, PublicationPath, PublishedAt, PublishedName;
    if PublicationPath(w, file).Ok? {
      NameUsed(w, file);
    }
    forall name | PublishedName(w, file, name)
      ensures |name| >= 18 && PublicationPath(w, file) == Ok(PublishedAt(file, name))
    {
      PublishedUnder(w, file, name);
    }
  }

  lemma NameUsed(w: World, file: File)
    requires ClockFormats(w) && Canonical(file.thread) && HasSuffix(file.path, ".jsonl")
    requires PublicationPath(w, file).Ok?
    ensures exists name :: PublishedName(w, file, name)
  {
    hide Base, ParseName, Lower;
    NamePart(w, file);
    NotCompressed(file.path);
    var name := PublicationName(w, file).value.0;
    ParsedPath(name);
    assert PublishedName(w, file, name);
  }

  lemma PublishedUnder(w: World, file: File, name: string)
    requires ClockFormats(w) && Canonical(file.thread) && HasSuffix(file.path, ".jsonl")
    requires PublishedName(w, file, name)
    ensures |name| >= 18 && PublicationPath(w, file) == Ok(PublishedAt(file, name))
  {
    hide Base, ParseName, Lower, ManagedPath, PublicationPath;
    NotCompressed(file.path);
    assert PublicationName(w, file) == Ok((name, file.thread, file.rollout));
    NameIsClean(w, file, name);
    CanonicalName(name);
    UnderDate(w, file, name);
  }

  lemma NameIsClean(w: World, file: File, name: string)
    requires ClockFormats(w) && Canonical(file.thread) && HasSuffix(file.path, ".jsonl")
    requires PublishedName(w, file, name)
    ensures CleanName(name)
  {
    hide Base, ParseName, Lower;
    if name == Base(file.path) {
      ParsedName(file.path);
    } else {
      MadeName(w.stamp(file.meta.timestamp).value, file.thread);
    }
  }

  lemma UnderDate(w: World, file: File, name: string)
    requires PublicationName(w, file) == Ok((name, file.thread, file.rollout))
    requires |name| >= 70 && HasPrefix(name, "rollout-") && ValidStamp(TrimPrefix(name, "rollout-")[..19])
    ensures PublicationPath(w, file) == Ok(PublishedAt(file, name))
  {
    hide PublicationName, ParseName, Number, DaysIn;
    var rest := TrimPrefix(name, "rollout-");
    var stamp := rest[..19];
    StampDate(stamp);
    assert rest == name[8..] && stamp[..10] == rest[..10];
    assert stamp[..4] == name[8..12] && stamp[5..7] == name[13..15] && stamp[8..10] == name[16..18];
    Associate(name[8..12], name[13..15], name[16..18], name);
  }

  lemma Associate(y: string, m: string, d: string, name: string)
    ensures "sessions/" + (y + "/" + m + "/" + d) + "/" + name == "sessions/" + y + "/" + m + "/" + d + "/" + name
  {
  }

  // ---- the plain and the compressed form of a path ----

  lemma TrimForm(t: string)
    ensures TrimSuffix(t + ".zst", ".zst") == t
  {
    assert (t + ".zst")[|t|..] == ".zst";
  }

  lemma TwoForms(p: string, q: string)
    requires TrimSuffix(p, ".zst") == TrimSuffix(q, ".zst")
    ensures p == q || p == q + ".zst" || q == p + ".zst"
  {
    JoinTrimmed(p, ".zst");
    JoinTrimmed(q, ".zst");
  }

  lemma JoinTrimmed(p: string, suf: string)
    ensures p == TrimSuffix(p, suf) || p == TrimSuffix(p, suf) + suf
  {
    if HasSuffix(p, suf) {
      assert p == p[..|p| - |suf|] + suf;
    }
  }

  /** A directory prefix ends before the compression suffix begins. */
  lemma PrefixOfForm(t: string, suf: string, a: string)
    requires a != "" && a[|a| - 1] == '/' && '/' !in suf
    ensures HasPrefix(t + suf, a) <==> HasPrefix(t, a)
  {
    var p := t + suf;
    forall i | |t| <= i < |p|
      ensures p[i] != '/'
    {
      assert p[i] == suf[i - |t|];
    }
    assert HasPrefix(p, a) ==> p[|a| - 1] == '/';
  }

  lemma {:induction false} AfterSlashAppend(t: string, suf: string)
    requires '/' !in suf
    ensures AfterSlash(t + suf) == AfterSlash(t) + suf
  {
    if suf == "" {
      assert t + suf == t;
    } else {
      var m := suf[..|suf| - 1];
      assert forall c | c in m :: c in suf;
      assert suf == m + [suf[|suf| - 1]];
      assert (t + suf)[..|t + suf| - 1] == t + m;
      assert suf[|suf| - 1] in suf;
      AfterSlashAppend(t, m);
    }
  }

  lemma ParseOfForm(t: string)
    requires HasSuffix(t, ".jsonl")
    ensures TrimSuffix(Base(t + ".zst"), ".zst") == Base(t) == TrimSuffix(Base(t), ".zst")
  {
    hide Base;
    BaseOfForm(t, ".zst");
    BaseSuffix(t, ".jsonl");
    NotCompressed(Base(t));
    TrimForm(Base(t));
  }

  lemma BaseOfForm(t: string, suf: string)
    requires HasSuffix(t, ".jsonl") && suf != "" && '/' !in suf
    ensures Base(t + suf) == Base(t) + suf
  {
    AfterSlashAppend(t, suf);
    assert t[|t| - 1] == t[|t| - 6..][5] == 'l';
    assert suf[|suf| - 1] in suf;
  }

  predicate SameIdentities(a: Option<Candidate>, b: Option<Candidate>) {
    a.Some? == b.Some? && (a.Some? ==> a.value.thread == b.value.thread && a.value.rollout == b.value.rollout)
  }

  lemma SameCore(p: string, q: string)
    requires TrimSuffix(Base(p), ".zst") == TrimSuffix(Base(q), ".zst")
    ensures SameIdentities(ParseName(p), ParseName(q))
  {
    hide Base;
  }

  /** Both forms of a rollout path carry the same identities and lie in the same place. */
  lemma FormsAlike(p: string, q: string)
    requires TrimSuffix(p, ".zst") == TrimSuffix(q, ".zst") && HasSuffix(TrimSuffix(p, ".zst"), ".jsonl")
    ensures SameIdentities(ParseName(p), ParseName(q))
    ensures PrerequisitePath(p) == PrerequisitePath(q) && ManagedPath(p) == ManagedPath(q)
    ensures HasPrefix(p, "archived_sessions/") == HasPrefix(q, "archived_sessions/")
  {
    hide ParseName, Base, TrimSuffix;
    TwoForms(p, q);
    if p != q {
      var t := if p == q + ".zst" then q else p;
      TrimForm(t);
      assert TrimSuffix(t, ".zst") == TrimSuffix(t + ".zst", ".zst") == t;
      FormPrefixes(t);
      ParseOfForm(t);
      SameCore(p, q);
    }
  }

  lemma FormPrefixes(t: string)
    ensures PrerequisitePath(t + ".zst") == PrerequisitePath(t) && ManagedPath(t + ".zst") == ManagedPath(t)
    ensures HasPrefix(t + ".zst", "archived_sessions/") == HasPrefix(t, "archived_sessions/")
  {
    PrefixOfForm(t, ".zst", PREREQUISITE_ROOT);
    PrefixOfForm(t, ".zst", "sessions/");
    PrefixOfForm(t, ".zst", "archived_sessions/");
  }

  // ---- listed paths ----

  /** Both spellings of a rollout path end in the plain suffix once the compression suffix is off. */
  lemma SelectableSuffix(path: string)
    requires HasSuffix(path, ".jsonl") || HasSuffix(path, ".jsonl.zst")
    ensures HasSuffix(TrimSuffix(path, ".zst"), ".jsonl")
  {
    if HasSuffix(path, ".jsonl") {
      NotCompressed(path);
    } else {
      var t := path[..|path| - 4];
      assert path[|path| - 10..] == ".jsonl.zst";
      assert path[|path| - 4..] == path[|path| - 10..][6..] == ".zst";
      assert t[|t| - 6..] == path[|path| - 10..][..6] == ".jsonl";
    }
  }

  lemma {:induction false} AfterSlashTail(p: string)
    ensures |AfterSlash(p)| <= |p| && p[|p| - |AfterSlash(p)|..] == AfterSlash(p)
  {
    if p != "" && p[|p| - 1] != '/' {
      var q := p[..|p| - 1];
      AfterSlashTail(q);
      assert p[|p| - |AfterSlash(p)|..] == q[|q| - |AfterSlash(q)|..] + [p[|p| - 1]];
    }
  }

  lemma ValidEnd(p: string)
    requires ValidRelative(p)
    ensures p != "" && p[|p| - 1] != '/'
  {
    var r := Components(p);
    assert r[|r| - 1] in r;
  }

  lemma SuffixOfSuffix(p: string, tail: string, suf: string)
    requires |tail| <= |p| && p[|p| - |tail|..] == tail && HasSuffix(tail, suf)
    ensures HasSuffix(p, suf)
  {
    assert p[|p| - |suf|..] == tail[|tail| - |suf|..];
  }

  lemma LongSuffix(s: string)
    requires HasSuffix(TrimSuffix(s, ".zst"), ".jsonl")
    ensures HasSuffix(s, ".jsonl") || HasSuffix(s, ".jsonl.zst")
  {
    if HasSuffix(s, ".zst") {
      var t := s[..|s| - 4];
      assert s[|s| - 10..] == t[|t| - 6..] + s[|s| - 4..];
      assert ".jsonl" + ".zst" == ".jsonl.zst";
    }
  }

  /** A row may name every file the inventory lists. */
  lemma ParsedSuffix(p: string)
    requires ParseName(p).Some? && ValidRelative(p)
    ensures HasSuffix(p, ".jsonl") || HasSuffix(p, ".jsonl.zst")
  {
    hide ValidRelative, ParseCore, AfterSlash;
    ValidEnd(p);
    AfterSlashTail(p);
    assert Base(p) == AfterSlash(p);
    LongSuffix(Base(p));
    if HasSuffix(Base(p), ".jsonl") {
      SuffixOfSuffix(p, Base(p), ".jsonl");
    } else {
      SuffixOfSuffix(p, Base(p), ".jsonl.zst");
    }
  }

  // ---- which names are rollouts ----

  /** The last component of the path is rollout-<stamp>-<thread>[_<rollout>].jsonl[.zst]. */
  predicate NamedAs(path: string, stamp: string, thread: string, fork: Option<string>, compressed: bool) {
    Base(path) == "rollout-" + stamp + "-" + thread + (if fork.Some? then "_" + fork.value else "") + ".jsonl" +
                  (if compressed then ".zst" else "")
  }

  lemma ParsedPath(p: string)
    requires ParseName(p).Some?
    ensures ParseName(p).value.path == p
  {
    hide Base, ValidStamp;
  }

  /** The identities such a name carries: without a fork the rollout is the thread's own. */
  predicate Carries(c: Candidate, thread: string, fork: Option<string>) {
    ParseID(thread) == Some(c.thread) && ParseID(if fork.Some? then fork.value else thread) == Some(c.rollout)
  }

  lemma {:induction false} UnderscoreAfter(t: string, rest: string)
    requires '_' !in t
    ensures Underscore(t + "_" + rest) == |t|
  {
    var s := t + "_" + rest;
    if t == "" {
      assert s[0] == '_';
    } else {
      assert t[0] in t && forall c | c in t[1..] :: c in t;
      assert s[1..] == t[1..] + "_" + rest;
      UnderscoreAfter(t[1..], rest);
    }
  }

  lemma CoreNamed(path: string, stamp: string, thread: string, fork: Option<string>, c: Candidate)
    requires ValidStamp(stamp) && Carries(c, thread, fork) && c.path == path
    ensures ParseCore(path, stamp + "-" + thread + if fork.Some? then "_" + fork.value else "") == Some(c)
  {
    hide DaysIn, Number, ParseID;
    UuidChars(thread);
    var ids := thread + if fork.Some? then "_" + fork.value else "";
    var core := stamp + "-" + thread + if fork.Some? then "_" + fork.value else "";
    assert core[..19] == stamp && core[20..] == ids;
    if fork.Some? {
      assert ids == thread + "_" + fork.value;
      UnderscoreAfter(thread, fork.value);
      assert ids[|thread| + 1..] == fork.value;
    } else {
      assert ids == thread;
      NoUnderscore(thread);
    }
    assert ids[..|thread|] == thread;
  }

  lemma CoreMeans(path: string, core: string) returns (thread: string, fork: Option<string>)
    requires ParseCore(path, core).Some?
    ensures |core| >= 20 && ValidStamp(core[..19]) && Carries(ParseCore(path, core).value, thread, fork)
    ensures core == core[..19] + "-" + thread + if fork.Some? then "_" + fork.value else ""
  {
    hide ValidStamp, ParseID;
    var ids := core[20..];
    var cut := Underscore(ids);
    thread := ids[..cut];
    fork := if cut < |ids| then Some(ids[cut + 1..]) else None;
    assert ids == thread + if fork.Some? then "_" + fork.value else "";
    assert core == core[..19] + "-" + ids && ids[..|ids|] == ids;
  }

  /** Cutting the fixed parts off leaves the middle. */
  lemma CutApart(core: string)
    ensures var name := "rollout-" + core + ".jsonl";
            HasPrefix(name, "rollout-") && HasSuffix(name, ".jsonl") &&
            TrimSuffix(TrimPrefix(name, "rollout-"), ".jsonl") == core
  {
    var name := "rollout-" + core + ".jsonl";
    assert name[8..] == core + ".jsonl";
    assert (core + ".jsonl")[|core|..] == ".jsonl" && (core + ".jsonl")[..|core|] == core;
    assert name[|name| - 6..] == ".jsonl";
  }

  lemma NameOfCore(path: string, core: string)
    requires TrimSuffix(Base(path), ".zst") == "rollout-" + core + ".jsonl"
    ensures ParseName(path) == ParseCore(path, core)
  {
    hide ParseCore, Base;
    CutApart(core);
  }

  lemma PlainForm(name: string, path: string, compressed: bool)
    requires HasSuffix(name, ".jsonl") && Base(path) == name + if compressed then ".zst" else ""
    ensures TrimSuffix(Base(path), ".zst") == name
  {
    hide Base;
    NotCompressed(name);
    TrimForm(name);
    assert name + "" == name;
  }

  lemma NameAccepted(path: string, stamp: string, thread: string, fork: Option<string>, compressed: bool, c: Candidate)
    requires NamedAs(path, stamp, thread, fork, compressed) && ValidStamp(stamp) && Carries(c, thread, fork)
    requires c.path == path
    ensures ParseName(path) == Some(c)
  {
    hide ParseName, ParseCore, ValidStamp, Base, Carries, TrimSuffix, HasSuffix;
    var core := stamp + "-" + thread + if fork.Some? then "_" + fork.value else "";
    var name := "rollout-" + core + ".jsonl";
    CoreNamed(path, stamp, thread, fork, c);
    assert Base(path) == name + if compressed then ".zst" else "";
    CutApart(core);
    PlainForm(name, path, compressed);
    NameOfCore(path, core);
  }

  lemma CoreOfName(path: string) returns (name: string, core: string)
    requires ParseName(path).Some?
    ensures name == TrimSuffix(Base(path), ".zst") && HasPrefix(name, "rollout-") && HasSuffix(name, ".jsonl")
    ensures core == TrimSuffix(TrimPrefix(name, "rollout-"), ".jsonl") && ParseName(path) == ParseCore(path, core)
  {
    hide Base, ParseCore, HasPrefix, HasSuffix, TrimPrefix, TrimSuffix;
    name := TrimSuffix(Base(path), ".zst");
    core := TrimSuffix(TrimPrefix(name, "rollout-"), ".jsonl");
  }

  lemma NameMeans(path: string) returns (stamp: string, thread: string, fork: Option<string>, compressed: bool)
    requires ParseName(path).Some?
    ensures NamedAs(path, stamp, thread, fork, compressed) && ValidStamp(stamp)
    ensures Carries(ParseName(path).value, thread, fork)
  {
    hide ValidStamp, Base, ParseID, Carries, ParseCore, ParseName, HasPrefix, TrimPrefix, TrimSuffix;
    var name, core := CoreOfName(path);
    compressed := HasSuffix(Base(path), ".zst");
    JoinCompressed(Base(path));
    thread, fork := CoreMeans(path, core);
    Sandwich(name, "rollout-", ".jsonl");
    stamp := core[..19];
  }

  lemma JoinCompressed(p: string)
    ensures p == TrimSuffix(p, ".zst") + if HasSuffix(p, ".zst") then ".zst" else ""
  {
  }

  /** Names, exactly: a path is listed as a rollout if and only if its last component is a timestamp, a thread and
      perhaps a rollout of its own, in this form, plain or compressed; and these are the identities it has. */
  lemma ParseNameExactly(path: string, c: Candidate)
    ensures ParseName(path) == Some(c) <==>
            c.path == path && exists stamp, thread, fork, compressed ::
              NamedAs(path, stamp, thread, fork, compressed) && ValidStamp(stamp) && Carries(c, thread, fork)
  {
    hide ValidStamp, Base, ParseName, NamedAs, Carries;
    if ParseName(path) == Some(c) {
      var stamp, thread, fork, compressed := NameMeans(path);
      ParsedPath(path);
    }
    forall stamp, thread, fork, compressed | c.path == path && NamedAs(path, stamp, thread, fork, compressed) &&
                                             ValidStamp(stamp) && Carries(c, thread, fork)
      ensures ParseName(path) == Some(c)
    {
      NameAccepted(path, stamp, thread, fork, compressed, c);
    }
  }
}
