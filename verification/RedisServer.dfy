/** The three Lua scripts as atomic methods on the Redis keyspace they change in place. */
module RedisServer {
  import opened Arith
  import opened Calendar
  import opened Limits
  import opened Redis
  import opened CheckScript

  method Oldest(entries: set<Entry>) returns (score: int)
    requires entries != {}
    ensures score == OldestScore(entries)
  {
    var e :| e in entries;
    score := e.score;
    var rest := entries - {e};
    while rest != {}
      invariant rest <= entries
      invariant exists x :: x in entries && x.score == score
      invariant forall x :: x in entries - rest ==> score <= x.score
      decreases rest
    {
      var x :| x in rest;
      if x.score < score {
        score := x.score;
      }
      rest := rest - {x};
    }
  }

  /** Writing a window makes an earlier trim of it irrelevant. */
  lemma OverwriteTrimmed(s: Store, slot: Slot, kept: set<Entry>, w: Window)
    ensures TrimmedWindows(s, slot, kept)[slot := w] == s.windows[slot := w]
  {
  }

  /** A reply put together from what stands after the decision is the reply of the reading. */
  lemma ReplyFromParts(argv: Argv, r: Reading, cost: int, id: string, c: Clock, tokens: int, countAfter: int,
                       entries: set<Entry>, newUsed: int, crossed: bool, reply: Decision)
    requires argv.rate > 0
    requires reply == Reported(argv, cost, c, r.burstOk, r.sustainedOk, r.quotaOk, tokens, countAfter,
                               OldestOf(entries), newUsed, crossed)
    requires tokens == (if r.Allowed() then r.level.tokens - cost * UTOK else r.level.tokens)
    requires countAfter == (if r.Allowed() then |r.entries| + 1 else |r.entries|)
    requires entries == (if r.Allowed() then r.entries + {Entry(c.us, id)} else r.entries)
    requires newUsed == (if r.Allowed() then r.used + cost else r.used)
    ensures reply == Reply(argv, r, cost, id, c, crossed)
  {
  }

  class Server {
    var buckets: map<Slot, Bucket>
    var windows: map<Slot, Window>
    var counters: map<KeyMonth, Counter>
    var flags: map<KeyMonth, Flag>

    function Contents(): Store
      reads this
    {
      Store(buckets, windows, counters, flags)
    }

    /** Step 3 of check.lua: bucket read and refill. */
    method ReadBucket(argv: Argv, slot: Slot, nowUs: int) returns (tokens: int, ts: int)
      requires argv.rate > 0
      ensures Level(tokens, ts) == Refill(Contents(), slot, argv, nowUs)
    {
      if slot !in buckets {
        return argv.cap, nowUs;
      }
      tokens := buckets[slot].tokens;
      ts := buckets[slot].ts;
      var elapsed := nowUs - ts;
      if elapsed < 0 {
        elapsed := 0;
      }
      if elapsed * argv.rate >= argv.cap * UTOK {
        tokens := argv.cap;
        ts := nowUs;
      } else {
        var add := elapsed * argv.rate / UTOK;
        if add > 0 {
          tokens := tokens + add;
          if tokens >= argv.cap {
            tokens := argv.cap;
            ts := nowUs;
          } else {
            ts := ts + CeilDiv(add * UTOK, argv.rate);
          }
        }
      }
    }

    /** Step 4 of check.lua: trim the window and count what is left. */
    method TrimWindow(slot: Slot, bound: int) returns (count: int)
      modifies this`windows
      ensures var kept := Trim(Entries(old(Contents()), slot), bound);
              && windows == TrimmedWindows(old(Contents()), slot, kept)
              && Entries(Contents(), slot) == kept
              && count == |kept|
    {
      count := 0;
      if slot in windows {
        var kept := set e | e in windows[slot].entries && bound <= e.score;
        if kept == {} {
          windows := windows - {slot};
        } else {
          windows := windows[slot := windows[slot].(entries := kept)];
        }
        count := |kept|;
      } else {
        assert windows - {slot} == windows;
      }
    }

    /** Step 7 of check.lua: charge all three layers and raise the soft flag. */
    method Consume(argv: Argv, slot: Slot, cost: int, id: string, nowUs: int,
                   km: KeyMonth, monthEndS: int, tokens: int, ts: int, used: int)
      returns (newUsed: int, softCrossed: bool)
      requires argv.rate > 0
      requires used == Value(Contents(), km)
      modifies this
      ensures newUsed == used + cost
      ensures softCrossed <==> argv.soft > 0 && used < argv.soft <= newUsed && km !in old(flags)
      ensures buckets == old(buckets)[slot := Bucket(tokens, ts, Some(BucketDeadline(argv, nowUs)))]
      ensures windows == old(windows)[slot := Window(Entries(old(Contents()), slot) + {Entry(nowUs, id)},
                                                     Some(WindowDeadline(argv, nowUs)))]
      ensures counters == old(counters)[km := Counter(newUsed,
                if newUsed == cost then Some(Grace(monthEndS))
                else if km in old(counters) then old(counters)[km].deadline else None)]
      ensures flags == if softCrossed then old(flags)[km := Flag(Some(Grace(monthEndS)))] else old(flags)
    {
      buckets := buckets[slot := Bucket(tokens, ts, Some(BucketDeadline(argv, nowUs)))];

      var entries := if slot in windows then windows[slot].entries else {};
      windows := windows[slot := Window(entries + {Entry(nowUs, id)}, Some(WindowDeadline(argv, nowUs)))];

      newUsed := used + cost;
      counters := counters[km := Counter(newUsed, if km in counters then counters[km].deadline else None)];
      if newUsed == cost {
        counters := counters[km := counters[km].(deadline := Some(Grace(monthEndS)))];
      }

      softCrossed := false;
      if argv.soft > 0 && used < argv.soft && newUsed >= argv.soft {
        softCrossed := km !in flags;
        if softCrossed {
          flags := flags[km := Flag(Some(Grace(monthEndS)))];
        }
      }
    }

    /** The oldest entry's score, if the window has any. */
    method ReadOldest(slot: Slot) returns (oldest: Option<int>)
      requires slot in windows ==> windows[slot].entries != {}
      ensures oldest == OldestOf(Entries(Contents(), slot))
    {
      oldest := None;
      if slot in windows {
        var score := Oldest(windows[slot].entries);
        oldest := Some(score);
      }
    }

    /** Step 8 of check.lua: seconds until the oldest entry leaves the window. */
    method SustainedReset(slot: Slot, windowUs: int, nowUs: int) returns (sReset: int)
      requires slot in windows ==> windows[slot].entries != {}
      ensures sReset == ResetOf(OldestOf(Entries(Contents(), slot)), windowUs, nowUs)
    {
      sReset := 0;
      var oldest := ReadOldest(slot);
      if oldest.Some? {
        sReset := CeilDiv(oldest.value + windowUs - nowUs, UTOK);
        if sReset < 0 {
          sReset := 0;
        }
      }
    }

    /** Step 8 of check.lua: the retry time. */
    static method RetryTime(burstOk: bool, sustainedOk: bool, quotaOk: bool, need: int, rate: int, sReset: int, qReset: int)
      returns (retryAfter: int)
      requires rate > 0
      ensures retryAfter == RetryOf(burstOk, sustainedOk, quotaOk, need, rate, sReset, qReset)
    {
      retryAfter := 0;
      if !(burstOk && sustainedOk && quotaOk) {
        if !burstOk {
          retryAfter := CeilDiv(need, rate);
        }
        if !sustainedOk && sReset > retryAfter {
          retryAfter := sReset;
        }
        if !quotaOk && qReset > retryAfter {
          retryAfter := qReset;
        }
      }
    }

    /** Step 8 of check.lua: all reported values, from what stands after the decision. */
    method Report(argv: Argv, slot: Slot, cost: int, clock: Clock, tokens: int,
                  countAfter: int, newUsed: int, softCrossed: bool,
                  burstOk: bool, sustainedOk: bool, quotaOk: bool)
      returns (reply: Decision)
      requires argv.rate > 0
      requires slot in windows ==> windows[slot].entries != {}
      ensures reply == Reported(argv, cost, clock, burstOk, sustainedOk, quotaOk, tokens, countAfter,
                                OldestOf(Entries(Contents(), slot)), newUsed, softCrossed)
    {
      var bLimit := argv.cap / UTOK;
      var bRemaining := tokens / UTOK;
      var bReset := CeilDiv(argv.cap - tokens, argv.rate);

      var sRemaining := argv.sustained - countAfter;
      if sRemaining < 0 {
        sRemaining := 0;
      }
      var sReset := SustainedReset(slot, argv.windowUs, clock.us);

      var qRemaining := argv.hard - newUsed;
      if qRemaining < 0 {
        qRemaining := 0;
      }
      var qReset := clock.monthEndS - clock.s;

      var retryAfter := RetryTime(burstOk, sustainedOk, quotaOk, cost * UTOK - tokens, argv.rate, sReset, qReset);
      reply := Decision(
        burstOk && sustainedOk && quotaOk, DenyLayer(burstOk, sustainedOk, quotaOk),
        bLimit, bRemaining, bReset,
        argv.sustained, sRemaining, sReset,
        argv.hard, newUsed, qRemaining, qReset,
        softCrossed, clock.month, retryAfter);
    }

    /** Step 7 of check.lua: consume when admitted. `before` is the keyspace before the trim, and
        `r` what the script has read of it. */
    method Settle(ghost before: Store, ghost r: Reading, argv: Argv, slot: Slot, cost: int, id: string, clock: Clock,
                  tokens: int, ts: int, count: int, used: int, allowed: bool)
      returns (tokensAfter: int, countAfter: int, newUsed: int, softCrossed: bool)
      requires argv.rate > 0
      requires allowed == r.Allowed() && r.level == Level(tokens, ts) && count == |r.entries|
      requires r.km == KeyMonth(slot.key, clock.month) && used == r.used == Value(before, r.km)
      requires Contents() == before.(windows := TrimmedWindows(before, slot, r.entries))
      requires Entries(Contents(), slot) == r.entries
      modifies this
      ensures Contents() == Written(before, argv, slot, r, cost, id, clock.us, clock.monthEndS)
      ensures softCrossed == Crosses(before, argv, r, cost)
      ensures tokensAfter == if r.Allowed() then tokens - cost * UTOK else tokens
      ensures countAfter == if r.Allowed() then count + 1 else count
      ensures newUsed == if r.Allowed() then used + cost else used
      ensures Entries(Contents(), slot) == if r.Allowed() then r.entries + {Entry(clock.us, id)} else r.entries
      ensures slot in windows ==> windows[slot].entries != {}
    {
      tokensAfter, countAfter, newUsed, softCrossed := tokens, count, used, false;
      if allowed {
        tokensAfter := tokens - cost * UTOK;
        var km := KeyMonth(slot.key, clock.month);
        newUsed, softCrossed := Consume(argv, slot, cost, id, clock.us, km, clock.monthEndS, tokensAfter, ts, used);
        OverwriteTrimmed(before, slot, r.entries, windows[slot]);
        countAfter := count + 1;
      }
    }

    /** Steps 3 to 8 of check.lua, once the clock has named the month. */
    method Decide(argv: Argv, slot: Slot, cost: int, id: string, clock: Clock)
      returns (reply: Decision)
      requires argv.rate > 0
      modifies this
      ensures Contents() == CheckStore(old(Contents()), argv, slot, cost, id, clock)
      ensures reply == CheckReply(old(Contents()), argv, slot, cost, id, clock)
    {
      var nowUs, km := clock.us, KeyMonth(slot.key, clock.month);
      ghost var before, r := Contents(), Read(Contents(), argv, slot, km, cost, nowUs);
      var tokens, ts := ReadBucket(argv, slot, nowUs);
      var burstOk := tokens >= cost * UTOK;

      var count := TrimWindow(slot, nowUs - argv.windowUs);
      var sustainedOk := count + 1 <= argv.sustained;

      var used := if km in counters then counters[km].value else 0;
      var quotaOk := used + cost <= argv.hard;

      var allowed := burstOk && sustainedOk && quotaOk;
      var tokensAfter, countAfter, newUsed, softCrossed :=
        Settle(before, r, argv, slot, cost, id, clock, tokens, ts, count, used, allowed);
      reply := Report(argv, slot, cost, clock, tokensAfter, countAfter, newUsed, softCrossed,
                      burstOk, sustainedOk, quotaOk);
      ReplyFromParts(argv, r, cost, id, clock, tokensAfter, countAfter, Entries(Contents(), slot), newUsed, softCrossed, reply);
    }

    /** check.lua at the server clock (seconds, micros). */
    method Check(argv: Argv, slot: Slot, cost: int, id: string, seconds: int, micros: int)
      returns (reply: Decision)
      requires argv.rate > 0 && 0 <= micros < UTOK
      modifies this
      ensures Contents() == CheckStore(old(Contents()), argv, slot, cost, id, ReadClock(seconds, micros))
      ensures reply == CheckReply(old(Contents()), argv, slot, cost, id, ReadClock(seconds, micros))
    {
      var clock := ReadClock(seconds, micros);
      reply := Decide(argv, slot, cost, id, clock);
    }

    /** restore.lua: raise a month counter to a floor; never lower it. */
    method Restore(km: KeyMonth, floor: int, monthEnd: int) returns (value: int)
      modifies this`counters
      ensures Contents() == RestoreStore(old(Contents()), km, floor, monthEnd)
      ensures value == Value(Contents(), km)
    {
      var current := if km in counters then counters[km].value else 0;
      if current < floor {
        counters := counters[km := Counter(floor, None)];
        counters := counters[km := counters[km].(deadline := Some(Grace(monthEnd)))];
        return floor;
      } else {
        return current;
      }
    }
  }
}
