/** The rollup job: raise each month's persisted total to what Redis shows, then raise Redis to
    what is persisted. */
module Rollup {
  import opened Arith
  import opened Calendar
  import opened Limits
  import opened Redis
  import opened CheckScript
  import opened RedisServer
  import opened Naming

  /** One row per key and month, as the table's unique constraint has it. */
  datatype Account = Account(keyId: string, month: string)
  datatype Row = Row(used: int, quotaLimit: int)
  type Rollups = map<Account, Row>

  /** What SCAN and GET returned: key name and value, in any order, with repetitions. */
  type Scan = seq<(string, int)>

  function RowAt(rollups: Rollups, a: Account): Option<Row> {
    if a in rollups then Some(rollups[a]) else None
  }

  function Upserted(rollups: Rollups, a: Account, used: int, limit: int): Rollups {
    if a in rollups && used <= rollups[a].used then rollups else rollups[a := Row(used, limit)]
  }

  /** The account that a scanned name is about, if it parses and the key is known. */
  function AccountOf(name: string, known: map<string, int>): Option<Account> {
    var p := ParseQuotaKey(name);
    if p.Some? && p.value.keyId in known then Some(Account(p.value.keyId, p.value.month)) else None
  }

  function UpsertEntry(rollups: Rollups, e: (string, int), known: map<string, int>): Rollups {
    var a := AccountOf(e.0, known);
    if a.Some? then Upserted(rollups, a.value, e.1, known[a.value.keyId]) else rollups
  }

  function UpsertScan(rollups: Rollups, scan: Scan, known: map<string, int>): Rollups {
    if scan == [] then rollups
    else UpsertEntry(UpsertScan(rollups, scan[..|scan| - 1], known), scan[|scan| - 1], known)
  }

  /** How many scanned entries are about a known key. */
  function Parsing(scan: Scan, known: map<string, int>): nat {
    if scan == [] then 0
    else Parsing(scan[..|scan| - 1], known) + (if AccountOf(scan[|scan| - 1].0, known).Some? then 1 else 0)
  }

  /** The entries that count are those of a known key's counters, by their names. */
  lemma EntriesAreCounters(name: string, known: map<string, int>, a: Account)
    ensures AccountOf(name, known) == Some(a)
        <==> a.keyId in known && ':' !in a.keyId && ':' !in a.month && name == "qg:q:" + a.keyId + ":" + a.month
  {
    ParseIsExact(name, "q", a.keyId, a.month);
    assert FourParts("q", a.keyId, a.month) == "qg:q:" + a.keyId + ":" + a.month;
  }

  /** The positions of a scan that hold an entry about a known key. */
  function Positions(scan: Scan, known: map<string, int>): set<nat> {
    set i: nat | i < |scan| && AccountOf(scan[i].0, known).Some?
  }

  lemma PositionsOneMore(scan: Scan, e: (string, int), known: map<string, int>)
    ensures Positions(scan + [e], known)
         == Positions(scan, known) + (if AccountOf(e.0, known).Some? then {|scan|} else {})
  {
    var all := scan + [e];
    forall i: nat | i < |all|
      ensures all[i] == if i < |scan| then scan[i] else e
    {
    }
  }

  lemma {:induction false} ParsingCounts(scan: Scan, known: map<string, int>)
    ensures Parsing(scan, known) == |Positions(scan, known)|
  {
    if scan == [] {
      assert Positions(scan, known) == {};
    } else {
      var n := |scan| - 1;
      ParsingCounts(scan[..n], known);
      assert scan == scan[..n] + [scan[n]];
      PositionsOneMore(scan[..n], scan[n], known);
    }
  }

  /** One more entry. */
  lemma ScanNext(rollups: Rollups, scan: Scan, known: map<string, int>, n: nat)
    requires n < |scan|
    ensures UpsertScan(rollups, scan[..n + 1], known) == UpsertEntry(UpsertScan(rollups, scan[..n], known), scan[n], known)
    ensures Parsing(scan[..n + 1], known) == Parsing(scan[..n], known) + (if AccountOf(scan[n].0, known).Some? then 1 else 0)
  {
    assert scan[..n + 1][..n] == scan[..n];
  }

  // ----- what a scan amounts to

  function ValuesFor(scan: Scan, known: map<string, int>, a: Account): set<int> {
    set e | e in scan && AccountOf(e.0, known) == Some(a) :: e.1
  }

  ghost function MaxOf(values: set<int>): (m: int)
    requires exists v :: v in values
    ensures m in values && forall v :: v in values ==> v <= m
    decreases |values|
  {
    var v :| v in values;
    var rest := values - {v};
    assert forall u :: u in values ==> u == v || u in rest;
    if exists u :: u in rest then Max(v, MaxOf(rest)) else v
  }

  lemma MaxOfUnique(values: set<int>, m: int)
    requires m in values && forall v :: v in values ==> v <= m
    ensures MaxOf(values) == m
  {
  }

  /** The row once all the values were written: the largest of them, unless the row already
      had as much. */
  ghost function RowFor(row: Option<Row>, values: set<int>, limit: int): Option<Row> {
    if exists v :: v in values then
      if row.Some? && MaxOf(values) <= row.value.used then row else Some(Row(MaxOf(values), limit))
    else row
  }

  function With(values: set<int>, hit: bool, v: int): set<int> {
    if hit then values + {v} else values
  }

  lemma RowForOneMore(row: Option<Row>, values: set<int>, hit: bool, v: int, limit: int)
    ensures RowFor(row, With(values, hit, v), limit) == RaisedTo(RowFor(row, values, limit), hit, v, limit)
  {
    if hit {
      assert v in values + {v};
      if exists u :: u in values {
        MaxOfUnique(values + {v}, Max(v, MaxOf(values)));
      } else {
        MaxOfUnique(values + {v}, v);
      }
    }
  }

  function RaisedTo(r: Option<Row>, hit: bool, v: int, limit: int): Option<Row> {
    if !hit || (r.Some? && v <= r.value.used) then r else Some(Row(v, limit))
  }

  lemma ValuesOneMore(scan: Scan, known: map<string, int>, a: Account, n: nat)
    requires n == |scan| - 1
    ensures ValuesFor(scan, known, a)
         == With(ValuesFor(scan[..n], known, a), AccountOf(scan[n].0, known) == Some(a), scan[n].1)
  {
    assert forall e :: e in scan <==> e in scan[..n] || e == scan[n];
  }

  function LimitOf(known: map<string, int>, a: Account): int {
    if a.keyId in known then known[a.keyId] else 0
  }

  /** One scanned entry raises its own row and no other. */
  lemma EntryRaisesItsRow(rollups: Rollups, e: (string, int), known: map<string, int>, a: Account)
    ensures RowAt(UpsertEntry(rollups, e, known), a)
         == RaisedTo(RowAt(rollups, a), AccountOf(e.0, known) == Some(a), e.1, LimitOf(known, a))
  {
  }

  /** After a scan each row holds the largest value read for it, or what it already had. */
  lemma {:induction false} ScanReachesMaximum(rollups: Rollups, scan: Scan, known: map<string, int>, a: Account)
    ensures RowAt(UpsertScan(rollups, scan, known), a)
         == RowFor(RowAt(rollups, a), ValuesFor(scan, known, a), LimitOf(known, a))
  {
    if scan == [] {
      assert ValuesFor(scan, known, a) == {};
    } else {
      var n := |scan| - 1;
      ScanReachesMaximum(rollups, scan[..n], known, a);
      ValuesOneMore(scan, known, a, n);
      EntryRaisesItsRow(UpsertScan(rollups, scan[..n], known), scan[n], known, a);
      RowForOneMore(RowAt(rollups, a), ValuesFor(scan[..n], known, a), AccountOf(scan[n].0, known) == Some(a), scan[n].1, LimitOf(known, a));
    }
  }

  lemma SameRows(r: Rollups, r': Rollups)
    requires forall a :: RowAt(r, a) == RowAt(r', a)
    ensures r == r'
  {
    forall a
      ensures a in r <==> a in r'
      ensures a in r ==> r[a] == r'[a]
    {
      assert RowAt(r, a) == RowAt(r', a);
    }
  }

  /** The result does not depend on the order of a scan or on repetitions in it. */
  lemma ScanOrderIsIrrelevant(rollups: Rollups, scan: Scan, scan': Scan, known: map<string, int>)
    requires forall e :: e in scan <==> e in scan'
    ensures UpsertScan(rollups, scan, known) == UpsertScan(rollups, scan', known)
  {
    forall a
      ensures RowAt(UpsertScan(rollups, scan, known), a) == RowAt(UpsertScan(rollups, scan', known), a)
    {
      ScanReachesMaximum(rollups, scan, known, a);
      ScanReachesMaximum(rollups, scan', known, a);
      assert ValuesFor(scan, known, a) == ValuesFor(scan', known, a);
    }
    SameRows(UpsertScan(rollups, scan, known), UpsertScan(rollups, scan', known));
  }

  /** Two runs one after the other are one run over both scans: a run repeated changes nothing. */
  lemma {:induction false} RunsCompose(rollups: Rollups, scan: Scan, scan': Scan, known: map<string, int>)
    ensures UpsertScan(UpsertScan(rollups, scan, known), scan', known) == UpsertScan(rollups, scan + scan', known)
  {
    var all := scan + scan';
    if scan' == [] {
      assert all == scan;
    } else {
      var n := |scan'| - 1;
      RunsCompose(rollups, scan, scan'[..n], known);
      assert all[..|all| - 1] == scan + scan'[..n] && all[|all| - 1] == scan'[n];
    }
  }

  lemma RepeatedRunChangesNothing(rollups: Rollups, scan: Scan, known: map<string, int>)
    ensures UpsertScan(UpsertScan(rollups, scan, known), scan, known) == UpsertScan(rollups, scan, known)
  {
    RunsCompose(rollups, scan, scan, known);
    ScanOrderIsIrrelevant(rollups, scan + scan, scan, known);
  }

  // ----- restore

  /** Months whose end Python's datetime can compute. */
  predicate HasEnd(m: Month) {
    1 <= m.year <= 9999 && 0 <= m.month <= 12 && !(m.year == 9999 && m.month == 12)
  }

  /** A restore reaches the account's counter: the month parses and has an end. Otherwise the
      restore raises, and restores nothing. An account whose month is not spelt as the script
      spells it names no counter of the limiter. */
  predicate Restores(a: Account) {
    ScriptMonth(a.month).Some? && RollupMonth(a.month).Some? && HasEnd(RollupMonth(a.month).value)
  }

  /** And it dates the counter by its own month. */
  predicate Restorable(a: Account) {
    Restores(a) && RollupMonth(a.month) == ScriptMonth(a.month)
  }

  function CounterOf(a: Account): KeyMonth
    requires Restores(a)
  {
    KeyMonth(a.keyId, ScriptMonth(a.month).value)
  }

  lemma CountersAreDistinct(a: Account, b: Account)
    requires Restores(a) && Restores(b) && CounterOf(a) == CounterOf(b)
    ensures a == b
  {
  }

  predicate UpToNovember9999(m: Month) {
    (1 <= m.year <= 9998 && 1 <= m.month <= 12) || (m.year == 9999 && 1 <= m.month <= 11)
  }

  /** The rollup restores a month that the script names, and dates it rightly, exactly from
      January of the year 1 up to November 9999. */
  lemma ScriptMonthsAreRestorable(key: string, m: Month)
    requires Nameable(m)
    ensures Restorable(Account(key, MonthStr(m))) <==> UpToNovember9999(m)
    ensures Restores(Account(key, MonthStr(m))) ==> CounterOf(Account(key, MonthStr(m))) == KeyMonth(key, m)
  {
    RollupMonthReadsBack(m);
    ScriptMonthReadsBack(m);
  }

  lemma Year10000Name(month: int)
    requires 1 <= month <= 9
    ensures MonthStr(Month(10000, month)) == "10000-0" + [Digit(month)]
  {
    assert Decimal(10) == "10" && Decimal(100) == "100" && Decimal(1000) == "1000";
    assert Decimal(10000) == Decimal(1000) + [Digit(0)];
    assert Decimal(month) == [Digit(month)];
  }

  /** Of the year 10000 the first nine months are restored too, but dated in the year 1000. */
  lemma Year10000IsRestoredIntoThePast(key: string, month: int)
    requires 1 <= month <= 9
    ensures var a := Account(key, MonthStr(Month(10000, month)));
            Restores(a) && CounterOf(a) == KeyMonth(key, Month(10000, month)) && RollupMonth(a.month) == Some(Month(1000, 0))
  {
    var s := MonthStr(Month(10000, month));
    ScriptMonthReadsBack(Month(10000, month));
    Year10000Name(month);
    ThousandReads();
    assert s[..4] == "1000" && s[5..7] == "-0";
  }

  lemma ThousandReads()
    ensures SliceInt("1000") == Some(1000) && SliceInt("-0") == Some(0)
  {
    DecimalReadsBack(1000);
    DecimalReadsBack(0);
    assert Decimal(1000) == "1000" && Decimal(0) == "0";
    assert "-0"[1..] == "0";
  }

  function RestoreRow(s: Store, a: Account, used: int): Store {
    if Restores(a) then
      var dated := RollupMonth(a.month).value;
      RestoreStore(s, CounterOf(a), used, MonthEndSeconds(dated.year, dated.month))
    else s
  }

  /** Phase 2 over the rows in the order the query gave them. */
  function RestoreRows(s: Store, rows: seq<Account>, rollups: Rollups, known: map<string, int>): Store
    requires forall a :: a in rows ==> a in rollups
  {
    if rows == [] then s
    else
      var n := |rows| - 1;
      assert rows[n] in rows;
      AfterRow(RestoreRows(s, rows[..n], rollups, known), rows[n], rollups, known)
  }

  function AfterRow(s: Store, a: Account, rollups: Rollups, known: map<string, int>): Store
    requires a in rollups
  {
    if a.keyId in known then RestoreRow(s, a, rollups[a].used) else s
  }

  lemma RestoredValue(s: Store, km: KeyMonth, floor: int, monthEnd: int, other: KeyMonth)
    ensures Value(RestoreStore(s, km, floor, monthEnd), other)
         == if other == km then Max(Value(s, km), floor) else Value(s, other)
  {
  }

  lemma AfterRowValue(s: Store, b: Account, rollups: Rollups, known: map<string, int>, a: Account)
    requires Restorable(a) && b in rollups
    ensures Value(AfterRow(s, b, rollups, known), CounterOf(a))
         == if a == b && a.keyId in known then Max(Value(s, CounterOf(a)), rollups[a].used) else Value(s, CounterOf(a))
  {
    if Restores(b) {
      var km, dated := CounterOf(b), RollupMonth(b.month).value;
      RestoredValue(s, km, rollups[b].used, MonthEndSeconds(dated.year, dated.month), CounterOf(a));
      if CounterOf(a) == km {
        CountersAreDistinct(a, b);
      }
    }
  }

  /** One more row. */
  lemma RestoreRowsNext(s: Store, rows: seq<Account>, rollups: Rollups, known: map<string, int>, n: nat)
    requires (forall a :: a in rows ==> a in rollups) && n < |rows|
    ensures RestoreRows(s, rows[..n + 1], rollups, known)
         == AfterRow(RestoreRows(s, rows[..n], rollups, known), rows[n], rollups, known)
  {
    assert rows[..n + 1][..n] == rows[..n];
  }

  /** Redis's value of an account once the rows are restored: raised to its row, if it has one. */
  function Floored(value: int, a: Account, rows: seq<Account>, rollups: Rollups, known: map<string, int>): int {
    if a in rows && a in rollups && a.keyId in known then Max(value, rollups[a].used) else value
  }

  lemma FlooredNext(value: int, a: Account, rows: seq<Account>, rollups: Rollups, known: map<string, int>)
    requires rows != []
    ensures var n := |rows| - 1;
            var earlier := Floored(value, a, rows[..n], rollups, known);
            Floored(value, a, rows, rollups, known)
            == if a == rows[n] && a in rollups && a.keyId in known then Max(earlier, rollups[a].used) else earlier
  {
    assert a in rows <==> a in rows[..|rows| - 1] || a == rows[|rows| - 1];
  }

  lemma {:induction false} RestoreReachesFloor(s: Store, rows: seq<Account>, rollups: Rollups, known: map<string, int>, a: Account)
    requires (forall b :: b in rows ==> b in rollups) && Restorable(a)
    ensures Value(RestoreRows(s, rows, rollups, known), CounterOf(a)) == Floored(Value(s, CounterOf(a)), a, rows, rollups, known)
  {
    if rows != [] {
      var n := |rows| - 1;
      assert rows[n] in rows;
      RestoreReachesFloor(s, rows[..n], rollups, known, a);
      AfterRowValue(RestoreRows(s, rows[..n], rollups, known), rows[n], rollups, known, a);
      FlooredNext(Value(s, CounterOf(a)), a, rows, rollups, known);
    }
  }

  // ----- the deadlines that restores set

  function CounterAt(s: Store, km: KeyMonth): Option<Counter> {
    if km in s.counters then Some(s.counters[km]) else None
  }

  /** 45 days after the end of a month, in milliseconds. */
  function EndPlus45Days(m: Month): Option<int> {
    Some((MonthEndS(m) + 45 * 86_400) * 1_000)
  }

  /** A restorable account's own month end is what its restore uses. */
  lemma OwnMonthEnd(a: Account)
    requires Restores(a) && UpToNovember9999(CounterOf(a).month)
    ensures Restorable(a)
    ensures var dated := RollupMonth(a.month).value; MonthEndSeconds(dated.year, dated.month) == MonthEndS(CounterOf(a).month)
  {
    RollupMonthReadsBack(CounterOf(a).month);
    MonthEndsAgree(CounterOf(a).month);
  }

  lemma RestorableMonths(a: Account)
    requires Restorable(a)
    ensures UpToNovember9999(CounterOf(a).month)
  {
    ScriptMonthsAreRestorable(a.keyId, CounterOf(a).month);
  }

  /** So one restore is a run of restore.lua with that month end. */
  lemma RowIsDated(s: Store, a: Account, used: int)
    requires Restores(a) && UpToNovember9999(CounterOf(a).month)
    ensures RestoreRow(s, a, used) == RestoreStore(s, CounterOf(a), used, MonthEndS(CounterOf(a).month))
  {
    OwnMonthEnd(a);
  }

  /** The counter after a restore to a floor: raised and dated by its own month, or as it was. */
  predicate RestoredTo(s: Store, s': Store, km: KeyMonth, floor: int) {
    CounterAt(s', km) == if Value(s, km) < floor then Some(Counter(floor, EndPlus45Days(km.month))) else CounterAt(s, km)
  }

  lemma StoreIsDated(s: Store, s': Store, km: KeyMonth, floor: int)
    requires s' == RestoreStore(s, km, floor, MonthEndS(km.month))
    ensures RestoredTo(s, s', km, floor)
  {
  }

  lemma RowDatesCounter(s: Store, a: Account, used: int)
    requires Restores(a) && UpToNovember9999(CounterOf(a).month)
    ensures RestoredTo(s, RestoreRow(s, a, used), CounterOf(a), used)
  {
    RowIsDated(s, a, used);
    StoreIsDated(s, RestoreRow(s, a, used), CounterOf(a), used);
  }

  lemma RowSparesOthers(s: Store, b: Account, used: int, km: KeyMonth)
    requires Restores(b) ==> CounterOf(b) != km
    ensures CounterAt(RestoreRow(s, b, used), km) == CounterAt(s, km)
  {
  }

  function RaisedCounter(c: Option<Counter>, floor: int, deadline: Option<int>): Option<Counter> {
    if (if c.Some? then c.value.value else 0) < floor then Some(Counter(floor, deadline)) else c
  }

  lemma RowRestoresCounter(s: Store, b: Account, rollups: Rollups, known: map<string, int>, a: Account)
    requires Restorable(a) && b in rollups
    ensures CounterAt(AfterRow(s, b, rollups, known), CounterOf(a))
         == if a == b && a.keyId in known
            then RaisedCounter(CounterAt(s, CounterOf(a)), rollups[a].used, EndPlus45Days(CounterOf(a).month))
            else CounterAt(s, CounterOf(a))
  {
    RestorableMonths(a);
    if a == b {
      RowDatesCounter(s, a, rollups[a].used);
    } else {
      if Restores(b) && CounterOf(b) == CounterOf(a) {
        CountersAreDistinct(a, b);
      }
      RowSparesOthers(s, b, rollups[b].used, CounterOf(a));
    }
  }

  /** A counter below its account's row gets the row's value and its own month's deadline, 45 days
      after the month's end; any other counter keeps its value and its deadline. */
  lemma {:induction false} RestoreDatesCounters(s: Store, rows: seq<Account>, rollups: Rollups, known: map<string, int>, a: Account)
    requires (forall b :: b in rows ==> b in rollups) && Restorable(a)
    ensures CounterAt(RestoreRows(s, rows, rollups, known), CounterOf(a))
         == if a in rows && a.keyId in known
            then RaisedCounter(CounterAt(s, CounterOf(a)), rollups[a].used, EndPlus45Days(CounterOf(a).month))
            else CounterAt(s, CounterOf(a))
  {
    if rows != [] {
      var n := |rows| - 1;
      assert rows[n] in rows && (a in rows <==> a in rows[..n] || a == rows[n]);
      RestoreDatesCounters(s, rows[..n], rollups, known, a);
      RowRestoresCounter(RestoreRows(s, rows[..n], rollups, known), rows[n], rollups, known, a);
    }
  }

  /** Restores touch nothing but the counters their rows name. */
  lemma {:induction false} RestoresSpareTheRest(s: Store, rows: seq<Account>, rollups: Rollups, known: map<string, int>, km: KeyMonth)
    requires forall b :: b in rows ==> b in rollups
    ensures var s' := RestoreRows(s, rows, rollups, known);
            && s'.buckets == s.buckets && s'.windows == s.windows && s'.flags == s.flags
            && ((forall b :: b in rows && Restores(b) && b.keyId in known ==> CounterOf(b) != km) ==> CounterAt(s', km) == CounterAt(s, km))
  {
    if rows != [] {
      var n := |rows| - 1;
      assert rows[n] in rows;
      RestoresSpareTheRest(s, rows[..n], rollups, known, km);
    }
  }

  /** What writes and removes month counters: checks, losses, and restores of any accounts. */
  datatype Writing =
    | Checked(argv: Argv, slot: Slot, cost: int, id: string, clock: Clock)
    | Lost(gone: set<RedisKey>)
    | Restored(account: Account, used: int)

  predicate Proper(w: Writing) {
    w.Checked? ==> w.argv.rate > 0 && w.cost >= 1 && ValidMonth(w.clock.month) && w.clock.monthEndS == MonthEndS(w.clock.month)
  }

  function AfterWriting(s: Store, w: Writing): Store
    requires Proper(w)
  {
    match w
    case Checked(argv, slot, cost, id, c) => CheckStore(s, argv, slot, cost, id, c)
    case Lost(gone) => Lose(s, gone)
    case Restored(a, used) => RestoreRow(s, a, used)
  }

  function AfterWritings(ws: seq<Writing>): Store
    requires forall i :: 0 <= i < |ws| ==> Proper(ws[i])
  {
    if ws == [] then Empty else AfterWriting(AfterWritings(ws[..|ws| - 1]), ws[|ws| - 1])
  }

  ghost predicate DatedAt(s: Store, km: KeyMonth) {
    CounterAt(s, km).Some? && UpToNovember9999(km.month) ==> CounterAt(s, km).value.deadline == EndPlus45Days(km.month)
  }

  ghost predicate DatedByMonth(s: Store) {
    forall km :: DatedAt(s, km)
  }

  lemma RestoreKeepsDate(s: Store, a: Account, used: int, km: KeyMonth)
    requires DatedAt(s, km)
    ensures DatedAt(RestoreRow(s, a, used), km)
  {
    if Restores(a) && CounterOf(a) == km {
      if UpToNovember9999(km.month) {
        RowDatesCounter(s, a, used);
      }
    } else {
      RowSparesOthers(s, a, used, km);
    }
  }

  lemma CheckKeepsDate(s: Store, argv: Argv, slot: Slot, cost: int, id: string, c: Clock, km: KeyMonth)
    requires DatedAt(s, km) && argv.rate > 0 && cost >= 1 && c.monthEndS == MonthEndS(c.month)
    ensures DatedAt(CheckStore(s, argv, slot, cost, id, c), km)
  {
    var end := MonthEndS(c.month);
    CheckDatesCounter(s, argv, slot, cost, id, c, km, end);
  }

  /** A check leaves a counter its deadline, or makes one that is dated by the clock's month end. */
  lemma CheckDatesCounter(s: Store, argv: Argv, slot: Slot, cost: int, id: string, c: Clock, km: KeyMonth, end: int)
    requires argv.rate > 0 && cost >= 1 && c.monthEndS == end
    ensures var before, after := CounterAt(s, km), CounterAt(CheckStore(s, argv, slot, cost, id, c), km);
            after.Some? ==>
              (km == KeyMonth(slot.key, c.month) && after.value.deadline == Some((end + 45 * 86_400) * 1_000))
              || (before.Some? && after.value.deadline == before.value.deadline)
  {
  }

  lemma WritingKeepsDates(s: Store, w: Writing)
    requires DatedByMonth(s) && Proper(w)
    ensures DatedByMonth(AfterWriting(s, w))
  {
    forall km
      ensures DatedAt(AfterWriting(s, w), km)
    {
      assert DatedAt(s, km);
      match w
      case Checked(argv, slot, cost, id, c) => CheckKeepsDate(s, argv, slot, cost, id, c, km);
      case Restored(a, used) => RestoreKeepsDate(s, a, used, km);
      case Lost(_) =>
    }
  }

  /** In every run of checks, losses and restores, of whatever accounts, every counter of a month
      up to November 9999 is dated 45 days after that month's end. */
  lemma {:induction false} CountersStayDated(ws: seq<Writing>)
    requires forall i :: 0 <= i < |ws| ==> Proper(ws[i])
    ensures DatedByMonth(AfterWritings(ws))
  {
    if ws != [] {
      var n := |ws| - 1;
      CountersStayDated(ws[..n]);
      WritingKeepsDates(AfterWritings(ws[..n]), ws[n]);
    }
  }

  // ----- one undisturbed run

  /** A scan that saw every counter of the store with its value. */
  ghost predicate Complete(scan: Scan, s: Store, known: map<string, int>) {
    && (forall e :: e in scan ==> SawCounter(e, s, known))
    && (forall a: Account :: a.keyId in known && Restorable(a) && CounterOf(a) in s.counters ==> Saw(scan, a, s))
  }

  ghost predicate SawCounter(e: (string, int), s: Store, known: map<string, int>) {
    var a := AccountOf(e.0, known);
    a.Some? && Restorable(a.value) ==> CounterOf(a.value) in s.counters && e.1 == s.counters[CounterOf(a.value)].value
  }

  ghost predicate Saw(scan: Scan, a: Account, s: Store)
    requires Restorable(a) && CounterOf(a) in s.counters
  {
    exists e :: e in scan && ParseQuotaKey(e.0) == Some(Parsed(a.keyId, a.month)) && e.1 == s.counters[CounterOf(a)].value
  }

  lemma CompleteValues(scan: Scan, s: Store, known: map<string, int>, a: Account)
    requires Complete(scan, s, known) && a.keyId in known && Restorable(a)
    ensures ValuesFor(scan, known, a) == if CounterOf(a) in s.counters then {s.counters[CounterOf(a)].value} else {}
  {
    forall e | e in scan && AccountOf(e.0, known) == Some(a)
      ensures CounterOf(a) in s.counters && e.1 == s.counters[CounterOf(a)].value
    {
      assert SawCounter(e, s, known);
    }
    if CounterOf(a) in s.counters {
      assert Saw(scan, a, s);
      var e :| e in scan && ParseQuotaKey(e.0) == Some(Parsed(a.keyId, a.month)) && e.1 == s.counters[CounterOf(a)].value;
      assert e.1 in ValuesFor(scan, known, a);
    }
  }

  function UsedAt(rollups: Rollups, a: Account): int {
    if a in rollups then rollups[a].used else 0
  }

  lemma ScanUsed(rollups: Rollups, scan: Scan, s: Store, known: map<string, int>, a: Account)
    requires Complete(scan, s, known) && a.keyId in known && Restorable(a) && Value(s, CounterOf(a)) >= 0 && UsedAt(rollups, a) >= 0
    ensures UsedAt(UpsertScan(rollups, scan, known), a) == Max(Value(s, CounterOf(a)), UsedAt(rollups, a))
    ensures a in UpsertScan(rollups, scan, known) <==> a in rollups || CounterOf(a) in s.counters
  {
    ScanReachesMaximum(rollups, scan, known, a);
    CompleteValues(scan, s, known, a);
    if CounterOf(a) in s.counters {
      MaxOfUnique(ValuesFor(scan, known, a), s.counters[CounterOf(a)].value);
    }
    assert RowAt(UpsertScan(rollups, scan, known), a).Some? <==> a in UpsertScan(rollups, scan, known);
  }

  /** A run that nothing disturbs leaves Redis and the table agreeing, for every known key and
      month, on the larger of the two values they had; whatever lost its value gets it back. */
  lemma RunReconciles(rollups: Rollups, s: Store, scan: Scan, rows: seq<Account>, known: map<string, int>, a: Account)
    requires Complete(scan, s, known) && a.keyId in known && Restorable(a)
    requires Value(s, CounterOf(a)) >= 0 && UsedAt(rollups, a) >= 0
    requires forall b :: b in rows <==> b in UpsertScan(rollups, scan, known)
    ensures var rollups' := UpsertScan(rollups, scan, known);
            var s' := RestoreRows(s, rows, rollups', known);
            UsedAt(rollups', a) == Value(s', CounterOf(a)) == Max(Value(s, CounterOf(a)), UsedAt(rollups, a))
  {
    var rollups' := UpsertScan(rollups, scan, known);
    ScanUsed(rollups, scan, s, known, a);
    RestoreReachesFloor(s, rows, rollups', known, a);
  }

  // ----- the job itself

  class RollupJob {
    var rollups: Rollups
    const known: map<string, int>
    const redis: Server

    constructor (known: map<string, int>, redis: Server)
      ensures rollups == map[] && this.known == known && this.redis == redis
    {
      rollups := map[];
      this.known := known;
      this.redis := redis;
    }

    method UpsertRollup(a: Account, used: int, limit: int)
      modifies this`rollups
      ensures rollups == Upserted(old(rollups), a, used, limit)
    {
      if a in rollups {
        if used > rollups[a].used {
          rollups := rollups[a := Row(used, limit)];
        }
      } else {
        rollups := rollups[a := Row(used, limit)];
      }
    }

    /** Phase 1. */
    method UpsertScanned(scan: Scan) returns (upserted: nat)
      modifies this`rollups
      ensures rollups == UpsertScan(old(rollups), scan, known)
      ensures upserted == Parsing(scan, known)
    {
      upserted := 0;
      var i := 0;
      while i < |scan|
        invariant 0 <= i <= |scan|
        invariant rollups == UpsertScan(old(rollups), scan[..i], known)
        invariant upserted == Parsing(scan[..i], known)
      {
        ScanNext(old(rollups), scan, known, i);
        var parsed := ParseQuotaKey(scan[i].0);
        if parsed.Some? && parsed.value.keyId in known {
          UpsertRollup(Account(parsed.value.keyId, parsed.value.month), scan[i].1, known[parsed.value.keyId]);
          upserted := upserted + 1;
        }
        i := i + 1;
      }
      assert scan[..i] == scan;
    }

    /** The count says that the counter now shows the row's value, also when it did before. A key
        that is no counter of the limiter is not part of this keyspace. */
    method RestoreFromRollup(a: Account, used: int) returns (restored: nat)
      modifies redis
      ensures redis.Contents() == RestoreRow(old(redis.Contents()), a, used)
      ensures restored == if Restores(a) && Value(old(redis.Contents()), CounterOf(a)) <= used then 1 else 0
    {
      restored := 0;
      var month, named := RollupMonth(a.month), ScriptMonth(a.month);
      if named.Some? && month.Some? && HasEnd(month.value) {
        var monthEnd := MonthEndSeconds(month.value.year, month.value.month);
        var value := redis.Restore(KeyMonth(a.keyId, named.value), used, monthEnd);
        if value == used {
          restored := 1;
        }
      }
    }

    /** Phase 2, over the rows in the order the query gave them. */
    method RestoreAll(rows: seq<Account>)
      requires forall a :: a in rows ==> a in rollups
      modifies redis
      ensures redis.Contents() == RestoreRows(old(redis.Contents()), rows, rollups, known)
    {
      var i := 0;
      while i < |rows|
        invariant 0 <= i <= |rows|
        invariant redis.Contents() == RestoreRows(old(redis.Contents()), rows[..i], rollups, known)
      {
        RestoreRowsNext(old(redis.Contents()), rows, rollups, known, i);
        if rows[i].keyId in known {
          var restored := RestoreFromRollup(rows[i], rollups[rows[i]].used);
        }
        i := i + 1;
      }
      assert rows[..i] == rows;
    }
  }
}
