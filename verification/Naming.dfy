/** The Redis key names as strings: why buckets, windows, counters and flags may be modelled as
    four typed maps, and why the rollup parses back exactly what the script named. */
module Naming {
  import opened Arith
  import opened Calendar
  import opened Redis
  import opened Limits
  import opened CheckScript

  // ----- decimal numerals

  function Digit(d: nat): char
    requires d < 10
  {
    '0' + d as char
  }

  predicate IsDigit(c: char) {
    '0' <= c <= '9'
  }

  predicate AllDigits(s: string) {
    forall i :: 0 <= i < |s| ==> IsDigit(s[i])
  }

  /** %d for a number that is not negative. */
  function Decimal(n: nat): (s: string)
    ensures s != [] && AllDigits(s)
  {
    if n < 10 then [Digit(n)] else Decimal(n / 10) + [Digit(n % 10)]
  }

  /** %04d */
  function FourDigits(n: nat): string {
    if n < 10 then "000" + Decimal(n)
    else if n < 100 then "00" + Decimal(n)
    else if n < 1000 then "0" + Decimal(n)
    else Decimal(n)
  }

  /** %02d */
  function TwoDigits(n: nat): string {
    if n < 10 then "0" + Decimal(n) else Decimal(n)
  }

  /** Python's int() on a digit string. */
  function IntOf(s: string): (n: int)
    requires AllDigits(s)
    ensures n >= 0
  {
    if s == [] then 0 else IntOf(s[..|s| - 1]) * 10 + (s[|s| - 1] as int - '0' as int)
  }

  lemma {:induction false} DecimalReadsBack(n: nat)
    ensures IntOf(Decimal(n)) == n
  {
    if n < 10 {
      assert Decimal(n)[..0] == [];
    } else {
      var s := Decimal(n / 10);
      DecimalReadsBack(n / 10);
      assert Decimal(n)[..|Decimal(n)| - 1] == s;
    }
  }

  lemma {:induction false} LeadingZero(s: string)
    requires AllDigits(s)
    ensures IntOf("0" + s) == IntOf(s)
  {
    if s == [] {
      assert "0" + s == "0";
      assert "0"[..0] == [];
    } else {
      LeadingZero(s[..|s| - 1]);
      assert ("0" + s)[..|s|] == "0" + s[..|s| - 1];
    }
  }

  lemma {:induction false} DecimalLength(n: nat)
    ensures |Decimal(n)| == 1 <==> n < 10
    ensures |Decimal(n)| == 2 <==> 10 <= n < 100
    ensures |Decimal(n)| == 3 <==> 100 <= n < 1000
    ensures |Decimal(n)| == 4 <==> 1000 <= n < 10000
  {
    if n >= 10 { DecimalLength(n / 10); }
  }

  lemma FourDigitsReadBack(n: nat)
    ensures AllDigits(FourDigits(n)) && IntOf(FourDigits(n)) == n
    ensures |FourDigits(n)| >= 4 && (|FourDigits(n)| == 4 <==> n < 10000)
  {
    DecimalReadsBack(n);
    DecimalLength(n);
    LeadingZero(Decimal(n));
    LeadingZero("0" + Decimal(n));
    LeadingZero("00" + Decimal(n));
    assert "00" + Decimal(n) == "0" + ("0" + Decimal(n));
    assert "000" + Decimal(n) == "0" + ("00" + Decimal(n));
  }

  lemma TwoDigitsReadBack(n: nat)
    requires n < 100
    ensures AllDigits(TwoDigits(n)) && IntOf(TwoDigits(n)) == n && |TwoDigits(n)| == 2
  {
    DecimalReadsBack(n);
    DecimalLength(n);
    LeadingZero(Decimal(n));
  }

  // ----- months

  predicate Nameable(m: Month) {
    0 <= m.year && 1 <= m.month <= 12
  }

  /** The script's %04d-%02d. */
  function MonthStr(m: Month): string
    requires Nameable(m)
  {
    FourDigits(m.year) + "-" + TwoDigits(m.month)
  }

  lemma MonthStrParts(m: Month)
    requires Nameable(m)
    ensures var s, y := MonthStr(m), FourDigits(m.year);
            && |s| == |y| + 3 && |y| >= 4
            && s[..|s| - 3] == y && s[|s| - 2..] == TwoDigits(m.month)
            && s[|s| - 3] == '-' && ':' !in s
  {
    FourDigitsReadBack(m.year);
    TwoDigitsReadBack(m.month);
  }

  /** Different months have different names. */
  lemma MonthStrIsInjective(a: Month, b: Month)
    requires Nameable(a) && Nameable(b) && MonthStr(a) == MonthStr(b)
    ensures a == b
  {
    MonthStrParts(a);
    MonthStrParts(b);
    FourDigitsReadBack(a.year);
    FourDigitsReadBack(b.year);
    TwoDigitsReadBack(a.month);
    TwoDigitsReadBack(b.month);
  }

  /** Python's int() on a slice of a month name: digits, or a minus sign and digits. */
  function SliceInt(s: string): Option<int> {
    if s != [] && AllDigits(s) then Some(IntOf(s))
    else if |s| > 1 && s[0] == '-' && AllDigits(s[1..]) then Some(-IntOf(s[1..]))
    else None
  }

  /** The rollup's reading of a month name: int(month[:4]) and int(month[5:7]). */
  function RollupMonth(s: string): Option<Month> {
    if |s| >= 7 && SliceInt(s[..4]).Some? && SliceInt(s[5..7]).Some? then
      Some(Month(SliceInt(s[..4]).value, SliceInt(s[5..7]).value))
    else None
  }

  /** The rollup reads back the month that the script named exactly up to the year 9999. */
  lemma RollupMonthReadsBack(m: Month)
    requires Nameable(m)
    ensures RollupMonth(MonthStr(m)) == Some(m) <==> m.year <= 9999
  {
    MonthStrParts(m);
    FourDigitsReadBack(m.year);
    TwoDigitsReadBack(m.month);
    var s := MonthStr(m);
    if m.year <= 9999 {
      assert s[..4] == FourDigits(m.year) && s[5..7] == TwoDigits(m.month);
    } else {
      assert s[..4] == FourDigits(m.year)[..4];
      FourDigitsAreSmall(s[..4]);
    }
  }

  /** The month whose counter has this month in its name, if the script names one so. */
  function ScriptMonth(s: string): Option<Month> {
    var n := |s| - 3;
    if n >= 4 && AllDigits(s[..n]) && AllDigits(s[n + 1..]) then
      var m := Month(IntOf(s[..n]), IntOf(s[n + 1..]));
      if Nameable(m) && MonthStr(m) == s then Some(m) else None
    else None
  }

  lemma ScriptMonthReadsBack(m: Month)
    requires Nameable(m)
    ensures ScriptMonth(MonthStr(m)) == Some(m)
  {
    MonthStrParts(m);
    FourDigitsReadBack(m.year);
    TwoDigitsReadBack(m.month);
  }

  lemma FourDigitsAreSmall(s: string)
    requires |s| == 4 && AllDigits(s)
    ensures IntOf(s) <= 9999
  {
    LastDigit(s);
    LastDigit(s[..3]);
    LastDigit(s[..2]);
    LastDigit(s[..1]);
    assert s[..3][..2] == s[..2] && s[..2][..1] == s[..1] && s[..1][..0] == [];
  }

  lemma LastDigit(s: string)
    requires s != [] && AllDigits(s)
    ensures AllDigits(s[..|s| - 1]) && IntOf(s) <= 10 * IntOf(s[..|s| - 1]) + 9
  {
  }

  // ----- key names

  function BucketName(slot: Slot): string { "qg:b:" + slot.key + ":" + slot.resource }
  function WindowName(slot: Slot): string { "qg:s:" + slot.key + ":" + slot.resource }
  function CounterName(key: string, month: string): string { "qg:q:" + key + ":" + month }
  function FlagName(key: string, month: string): string { "qg:f:" + key + ":" + month }

  /** Generated key ids are k_ and hex digits; all that matters is that they have no colon.
      Resources may have any. */
  predicate Named(k: RedisKey) {
    match k
    case BucketKey(slot) => ':' !in slot.key
    case WindowKey(slot) => ':' !in slot.key
    case CounterKey(km) => ':' !in km.key && Nameable(km.month)
    case FlagKey(km) => ':' !in km.key && Nameable(km.month)
  }

  function Name(k: RedisKey): string
    requires Named(k)
  {
    match k
    case BucketKey(slot) => BucketName(slot)
    case WindowKey(slot) => WindowName(slot)
    case CounterKey(km) => CounterName(km.key, MonthStr(km.month))
    case FlagKey(km) => FlagName(km.key, MonthStr(km.month))
  }

  const LOCK_NAME := "qg:lock:rollup"

  function UpToColon(s: string): string {
    if s == [] || s[0] == ':' then [] else [s[0]] + UpToColon(s[1..])
  }

  lemma {:induction false} UpToColonOf(a: string, x: string)
    requires ':' !in a
    ensures UpToColon(a + ":" + x) == a
  {
    if a == [] {
      assert (a + ":" + x)[0] == ':';
    } else {
      UpToColonOf(a[1..], x);
      assert (a + ":" + x)[1..] == a[1..] + ":" + x;
      assert [a[0]] + a[1..] == a;
    }
  }

  /** A name splits at its first colon in only one way. */
  lemma FirstColon(a: string, x: string, b: string, y: string)
    requires ':' !in a && ':' !in b && a + ":" + x == b + ":" + y
    ensures a == b && x == y
  {
    UpToColonOf(a, x);
    UpToColonOf(b, y);
    assert x == (a + ":" + x)[|a| + 1..];
    assert y == (b + ":" + y)[|b| + 1..];
  }

  function Kind(k: RedisKey): char {
    match k
    case BucketKey(_) => 'b'
    case WindowKey(_) => 's'
    case CounterKey(_) => 'q'
    case FlagKey(_) => 'f'
  }

  function OwnerOf(k: RedisKey): string {
    match k
    case BucketKey(slot) => slot.key
    case WindowKey(slot) => slot.key
    case CounterKey(km) => km.key
    case FlagKey(km) => km.key
  }

  function SuffixOf(k: RedisKey): string
    requires Named(k)
  {
    match k
    case BucketKey(slot) => slot.resource
    case WindowKey(slot) => slot.resource
    case CounterKey(km) => MonthStr(km.month)
    case FlagKey(km) => MonthStr(km.month)
  }

  lemma AfterPrefix(prefix: string, owner: string, suffix: string)
    requires |prefix| == 5
    ensures (prefix + owner + ":" + suffix)[..3] == prefix[..3]
    ensures (prefix + owner + ":" + suffix)[3] == prefix[3]
    ensures (prefix + owner + ":" + suffix)[5..] == owner + ":" + suffix
  {
  }

  function Prefix(k: RedisKey): (p: string)
    ensures |p| == 5 && p[..3] == "qg:" && p[3] == Kind(k)
  {
    match k
    case BucketKey(_) => "qg:b:"
    case WindowKey(_) => "qg:s:"
    case CounterKey(_) => "qg:q:"
    case FlagKey(_) => "qg:f:"
  }

  lemma NameParts(k: RedisKey)
    requires Named(k)
    ensures Name(k)[..3] == "qg:" && Name(k)[3] == Kind(k)
    ensures Name(k)[5..] == OwnerOf(k) + ":" + SuffixOf(k)
  {
    AfterPrefix(Prefix(k), OwnerOf(k), SuffixOf(k));
    assert Name(k) == Prefix(k) + OwnerOf(k) + ":" + SuffixOf(k);
  }

  /** The names the script builds are different for different keys, of any kind, even when a
      resource has colons, and none is the rollup lock. */
  lemma NamesAreInjective(a: RedisKey, b: RedisKey)
    requires Named(a) && Named(b)
    ensures Name(a) == Name(b) <==> a == b
    ensures Name(a) != LOCK_NAME
  {
    NameParts(a);
    NameParts(b);
    if Name(a) == Name(b) {
      FirstColon(OwnerOf(a), SuffixOf(a), OwnerOf(b), SuffixOf(b));
      if a.CounterKey? || a.FlagKey? {
        MonthStrIsInjective(a.km.month, b.km.month);
      }
    }
  }

  // ----- parsing

  /** str.split(":") */
  function Split(s: string): (parts: seq<string>)
    ensures parts != []
  {
    if s == [] then [""]
    else if s[0] == ':' then [""] + Split(s[1..])
    else
      var rest := Split(s[1..]);
      [[s[0]] + rest[0]] + rest[1..]
  }

  function Join(parts: seq<string>): string
    requires parts != []
  {
    if |parts| == 1 then parts[0] else parts[0] + ":" + Join(parts[1..])
  }

  lemma {:induction false} SplitJoins(s: string)
    ensures Join(Split(s)) == s
    ensures forall i :: 0 <= i < |Split(s)| ==> ':' !in Split(s)[i]
  {
    if s != [] {
      SplitJoins(s[1..]);
      var rest := Split(s[1..]);
      if s[0] != ':' {
        assert Split(s)[1..] == rest[1..];
        if |rest| > 1 {
          assert [s[0]] + (rest[0] + ":" + Join(rest[1..])) == ([s[0]] + rest[0]) + ":" + Join(rest[1..]);
        }
        assert [s[0]] + s[1..] == s;
      } else {
        assert Split(s)[1..] == rest;
        assert "" + ":" + s[1..] == s;
      }
    }
  }

  lemma {:induction false} SplitFirst(a: string, rest: string)
    requires ':' !in a
    ensures Split(a + ":" + rest) == [a] + Split(rest)
  {
    var s := a + ":" + rest;
    if a == [] {
      assert s[1..] == rest;
    } else {
      SplitFirst(a[1..], rest);
      assert s[1..] == a[1..] + ":" + rest;
      assert [a[0]] + a[1..] == a;
    }
  }

  lemma {:induction false} SplitWhole(a: string)
    requires ':' !in a
    ensures Split(a) == [a]
  {
    if a != [] {
      SplitWhole(a[1..]);
      assert [a[0]] + a[1..] == a;
    }
  }

  datatype Parsed = Parsed(keyId: string, month: string)

  /** parse_quota_key and parse_flag_key differ only in the kind they want. */
  function Parse(name: string, kind: string): Option<Parsed> {
    var parts := Split(name);
    if |parts| == 4 && parts[0] == "qg" && parts[1] == kind then Some(Parsed(parts[2], parts[3])) else None
  }

  function ParseQuotaKey(name: string): Option<Parsed> { Parse(name, "q") }
  function ParseFlagKey(name: string): Option<Parsed> { Parse(name, "f") }

  /** qg:kind:key:month */
  function FourParts(kind: string, key: string, month: string): string {
    "qg:" + kind + ":" + key + ":" + month
  }

  lemma FourPartsNested(kind: string, key: string, month: string)
    ensures FourParts(kind, key, month) == "qg" + ":" + (kind + ":" + (key + ":" + month))
  {
  }

  lemma SplitFour(kind: string, key: string, month: string)
    requires ':' !in kind && ':' !in key && ':' !in month
    ensures Split("qg" + ":" + (kind + ":" + (key + ":" + month))) == ["qg"] + ([kind] + ([key] + [month]))
  {
    var tail := key + ":" + month;
    SplitWhole(month);
    SplitFirst(key, month);
    SplitFirst(kind, tail);
    SplitFirst("qg", kind + ":" + tail);
  }

  lemma JoinFour(parts: seq<string>)
    requires |parts| == 4
    ensures Join(parts) == parts[0] + ":" + (parts[1] + ":" + (parts[2] + ":" + parts[3]))
  {
    assert parts[1..][1..] == parts[2..] && parts[2..][1..] == parts[3..];
    assert Join(parts[2..]) == parts[2] + ":" + Join(parts[3..]);
    assert Join(parts[1..]) == parts[1] + ":" + Join(parts[2..]);
  }

  /** Parsing accepts exactly the well-formed names of its kind, and returns their parts. */
  lemma ParseIsExact(name: string, kind: string, key: string, month: string)
    requires ':' !in kind
    ensures Parse(name, kind) == Some(Parsed(key, month))
        <==> ':' !in key && ':' !in month && name == FourParts(kind, key, month)
  {
    FourPartsNested(kind, key, month);
    if Parse(name, kind) == Some(Parsed(key, month)) {
      SplitJoins(name);
      JoinFour(Split(name));
    }
    if ':' !in key && ':' !in month && name == FourParts(kind, key, month) {
      SplitFour(kind, key, month);
    }
  }

  lemma QuotaNamesParse(k: RedisKey)
    requires Named(k)
    ensures ParseQuotaKey(Name(k)) == if k.CounterKey? then Some(Parsed(k.km.key, MonthStr(k.km.month))) else None
  {
    if k.CounterKey? {
      MonthStrParts(k.km.month);
      ParseIsExact(Name(k), "q", k.km.key, MonthStr(k.km.month));
    } else {
      OtherKind(k, "q");
    }
  }

  lemma FlagNamesParse(k: RedisKey)
    requires Named(k)
    ensures ParseFlagKey(Name(k)) == if k.FlagKey? then Some(Parsed(k.km.key, MonthStr(k.km.month))) else None
  {
    if k.FlagKey? {
      MonthStrParts(k.km.month);
      ParseIsExact(Name(k), "f", k.km.key, MonthStr(k.km.month));
    } else {
      OtherKind(k, "f");
    }
  }

  /** Of the names the limiter builds the rollup reads exactly the counters, the reconciliation
      exactly the flags, and both get back the key id and month. */
  lemma ParsingRecoversNames(k: RedisKey)
    requires Named(k)
    ensures ParseQuotaKey(Name(k)) == if k.CounterKey? then Some(Parsed(k.km.key, MonthStr(k.km.month))) else None
    ensures ParseFlagKey(Name(k)) == if k.FlagKey? then Some(Parsed(k.km.key, MonthStr(k.km.month))) else None
  {
    QuotaNamesParse(k);
    FlagNamesParse(k);
  }

  /** A name that parses shows its kind in its fourth character. */
  lemma ParsedKind(name: string, kind: string)
    requires |kind| == 1 && ':' !in kind && Parse(name, kind).Some?
    ensures |name| > 3 && name[3] == kind[0]
  {
    var p := Parse(name, kind).value;
    ParseIsExact(name, kind, p.keyId, p.month);
    FourPartsNested(kind, p.keyId, p.month);
  }

  lemma OtherKind(k: RedisKey, kind: string)
    requires Named(k) && |kind| == 1 && ':' !in kind && Kind(k) != kind[0]
    ensures Parse(Name(k), kind) == None
  {
    NameParts(k);
    if Parse(Name(k), kind).Some? {
      ParsedKind(Name(k), kind);
    }
  }

  // ----- what a check can touch

  /** The four keys one check may write; all others it leaves as they were. */
  predicate Touches(slot: Slot, month: Month, k: RedisKey) {
    k == BucketKey(slot) || k == WindowKey(slot)
    || k == CounterKey(KeyMonth(slot.key, month)) || k == FlagKey(KeyMonth(slot.key, month))
  }

  predicate SameAt(s: Store, s': Store, k: RedisKey) {
    match k
    case BucketKey(slot) => (slot in s.buckets <==> slot in s'.buckets) && (slot in s.buckets ==> s.buckets[slot] == s'.buckets[slot])
    case WindowKey(slot) => (slot in s.windows <==> slot in s'.windows) && (slot in s.windows ==> s.windows[slot] == s'.windows[slot])
    case CounterKey(km) => (km in s.counters <==> km in s'.counters) && (km in s.counters ==> s.counters[km] == s'.counters[km])
    case FlagKey(km) => (km in s.flags <==> km in s'.flags) && (km in s.flags ==> s.flags[km] == s'.flags[km])
  }

  /** A check leaves every key apart from its slot's bucket and window, and its key's counter
      and flag of the month, exactly as it was: every other key id, every other resource, every
      other month. */
  lemma CheckFramesEverythingElse(s: Store, argv: Argv, slot: Slot, cost: int, id: string, c: Clock, k: RedisKey)
    requires argv.rate > 0
    ensures SameAt(s, CheckStore(s, argv, slot, cost, id, c), k) || Touches(slot, c.month, k)
  {
  }
}
