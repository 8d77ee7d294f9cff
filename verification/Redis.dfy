/** The Redis keys of the limiter as typed maps. Every key carries an optional deadline in
    epoch milliseconds; None is a key that would live forever. */
module Redis {
  import opened Arith
  import opened Calendar

  /** Bucket and window keys are per (key id, resource); counters and flags per (key id, month). */
  datatype Slot = Slot(key: string, resource: string)
  datatype KeyMonth = KeyMonth(key: string, month: Month)

  datatype Bucket = Bucket(tokens: int, ts: int, deadline: Option<int>)
  datatype Entry = Entry(score: int, id: string)
  datatype Window = Window(entries: set<Entry>, deadline: Option<int>)
  datatype Counter = Counter(value: int, deadline: Option<int>)
  datatype Flag = Flag(deadline: Option<int>)

  datatype Store = Store(
    buckets: map<Slot, Bucket>,
    windows: map<Slot, Window>,
    counters: map<KeyMonth, Counter>,
    flags: map<KeyMonth, Flag>)

  const Empty := Store(map[], map[], map[], map[])

  datatype RedisKey =
    | BucketKey(slot: Slot)
    | WindowKey(slot: Slot)
    | CounterKey(km: KeyMonth)
    | FlagKey(km: KeyMonth)

  function Entries(s: Store, slot: Slot): set<Entry> {
    if slot in s.windows then s.windows[slot].entries else {}
  }

  function Value(s: Store, km: KeyMonth): int {
    if km in s.counters then s.counters[km].value else 0
  }

  predicate Overdue(deadline: Option<int>, nowMs: int) {
    deadline.Some? && deadline.value <= nowMs
  }

  /** Expiry: any of the named keys whose deadline has come may be gone. */
  function Expire(s: Store, gone: set<RedisKey>, nowMs: int): Store {
    Store(
      map k | k in s.buckets && !(BucketKey(k) in gone && Overdue(s.buckets[k].deadline, nowMs)) :: s.buckets[k],
      map k | k in s.windows && !(WindowKey(k) in gone && Overdue(s.windows[k].deadline, nowMs)) :: s.windows[k],
      map k | k in s.counters && !(CounterKey(k) in gone && Overdue(s.counters[k].deadline, nowMs)) :: s.counters[k],
      map k | k in s.flags && !(FlagKey(k) in gone && Overdue(s.flags[k].deadline, nowMs)) :: s.flags[k])
  }

  /** Data loss: the named keys are gone whatever their deadline. */
  function Lose(s: Store, gone: set<RedisKey>): Store {
    Store(
      map k | k in s.buckets && BucketKey(k) !in gone :: s.buckets[k],
      map k | k in s.windows && WindowKey(k) !in gone :: s.windows[k],
      map k | k in s.counters && CounterKey(k) !in gone :: s.counters[k],
      map k | k in s.flags && FlagKey(k) !in gone :: s.flags[k])
  }
}
