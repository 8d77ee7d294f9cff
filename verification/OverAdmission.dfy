/** What no run of the script can do: exceed the bucket, the sliding window or the quota. */
module OverAdmission {
  import opened Arith
  import opened Limits
  import opened Redis
  import opened CheckScript
  import opened History
  import opened Refinement

  /** The checks that the script allowed, in order. */
  ghost function Admitted(es: seq<Event>, book: Book): seq<Admission>
    requires Planned(es, book)
  {
    if es == [] then []
    else
      var earlier := Admitted(es[..|es| - 1], book);
      match es[|es| - 1]
      case Expiry(_, _) => earlier
      case Check(slot, cost, id, c) =>
        assert es[|es| - 1] in es;
        if CheckReply(ScriptRun(es[..|es| - 1], book).0, book[slot.key], slot, cost, id, c).allowed
        then earlier + [Admission(slot, cost, id, c)] else earlier
  }

  lemma {:induction false} AdmittedIsHistory(es: seq<Event>, book: Book)
    requires ValidRun(es, book)
    ensures Admitted(es, book) == SpecRun(es, book).0
  {
    if es != [] {
      var n := |es| - 1;
      PrefixIsValid(es, book);
      AdmittedIsHistory(es[..n], book);
      ScriptRefinesSpec(es, book);
      ScriptRefinesSpec(es[..n], book);
      assert es[n] in es;
      if es[n].Check? {
        var m := |ScriptRun(es[..n], book).1|;
        assert ScriptRun(es, book).1[m] == SpecRun(es, book).1[m];
      }
    }
  }

  ghost predicate LawfulAt(h: seq<Admission>, book: Book, j: int)
    requires 0 <= j < |h|
  {
    && h[j].slot.key in book && h[j].cost >= 1
    && Allows(h[..j], book[h[j].slot.key], h[j].slot, h[j].cost, h[j].clock)
  }

  /** Every admission was within all three limits given the admissions before it, and times
      do not run backwards. */
  ghost predicate Lawful(h: seq<Admission>, book: Book) {
    && ProperBook(book)
    && (forall j :: 0 <= j < |h| ==> LawfulAt(h, book, j))
    && (forall i, j :: 0 <= i < j < |h| ==> h[i].clock.us <= h[j].clock.us)
  }

  lemma AdmitIsLawful(h: seq<Admission>, book: Book, a: Admission)
    requires Lawful(h, book) && AllBefore(h, a.clock) && a.slot.key in book && a.cost >= 1
    requires Allows(h, book[a.slot.key], a.slot, a.cost, a.clock)
    ensures Lawful(h + [a], book)
  {
    var h' := h + [a];
    forall j | 0 <= j < |h'|
      ensures LawfulAt(h', book, j)
    {
      if j < |h| {
        assert LawfulAt(h, book, j);
        assert h'[..j] == h[..j];
      } else {
        assert h'[..j] == h;
      }
    }
  }

  lemma {:induction false} RunsAreLawful(es: seq<Event>, book: Book)
    requires ValidRun(es, book)
    ensures Lawful(SpecRun(es, book).0, book)
  {
    if es != [] {
      var n := |es| - 1;
      PrefixIsValid(es, book);
      RunsAreLawful(es[..n], book);
      PastOfLast(es, book);
      var h, e := SpecRun(es[..n], book).0, es[n];
      assert e in es;
      if e.Check? && Allows(h, book[e.slot.key], e.slot, e.cost, e.clock) {
        AdmitIsLawful(h, book, Admission(e.slot, e.cost, e.id, e.clock));
      }
    }
  }

  /** Over any stretch of a run that starts and ends with an admission on a slot, the cost
      admitted there is at most one full bucket plus the refill of the time between. */
  lemma BurstBound(h: seq<Admission>, book: Book, i: int, j: int)
    requires Lawful(h, book) && 0 <= i <= j < |h| && h[i].slot == h[j].slot
    ensures h[j].slot.key in book && var argv := book[h[j].slot.key];
            SlotCost(h[i..j + 1], h[j].slot) * UTOK <= argv.cap + PerMicro(argv) * (h[j].clock.us - h[i].clock.us)
  {
    assert LawfulAt(h, book, j);
    RoomBoundsStretch(h, book[h[j].slot.key].cap, PerMicro(book[h[j].slot.key]), i, j);
  }

  lemma RoomBoundsStretch(h: seq<Admission>, cap: int, r: int, i: int, j: int)
    requires 0 <= i <= j < |h| && h[i].slot == h[j].slot
    requires BurstRoom(h[..j], h[j].slot, cap, r, h[j].clock.us, h[j].cost * UTOK)
    ensures SlotCost(h[i..j + 1], h[j].slot) * UTOK <= cap + r * (h[j].clock.us - h[i].clock.us)
  {
    var earlier, slot := h[..j], h[j].slot;
    assert h[i..j + 1] == earlier[i..] + [h[j]];
    SlotCostAppend(earlier[i..], h[j], slot);
    if i < j {
      assert earlier[i].slot == slot;
      assert Covered(earlier, slot, i, cap, r, h[j].clock.us, h[j].cost * UTOK);
    } else {
      assert r * (h[j].clock.us - h[i].clock.us) == 0;
    }
  }

  function SlotCount(h: seq<Admission>, slot: Slot): int {
    if h == [] then 0
    else SlotCount(h[..|h| - 1], slot) + (if h[|h| - 1].slot == slot then 1 else 0)
  }

  /** All admissions of a stretch are counted when the stretch lies after the bound. */
  lemma {:induction false} StretchIsCounted(h: seq<Admission>, slot: Slot, i: int, bound: int)
    requires 0 <= i <= |h|
    requires forall k :: i <= k < |h| ==> bound <= h[k].clock.us
    ensures SlotCount(h[i..], slot) <= CountSince(h, slot, bound)
  {
    if i < |h| {
      var n := |h| - 1;
      StretchIsCounted(h[..n], slot, i, bound);
      assert h[i..][..|h[i..]| - 1] == h[..n][i..];
    } else {
      CountIsNotNegative(h, slot, bound);
    }
  }

  lemma {:induction false} CountIsNotNegative(h: seq<Admission>, slot: Slot, bound: int)
    ensures CountSince(h, slot, bound) >= 0
  {
    if h != [] {
      CountIsNotNegative(h[..|h| - 1], slot, bound);
    }
  }

  lemma StretchWithoutLast(h: seq<Admission>, i: int, j: int)
    requires 0 <= i <= j < |h|
    ensures h[i..j + 1][..j - i] == h[..j][i..] && h[i..j + 1][j - i] == h[j]
  {
  }

  /** A stretch holding more admissions of a slot than the sustained limit spans strictly more
      than one window: no closed window ever holds limit + 1 of them. */
  lemma SlidingWindow(h: seq<Admission>, book: Book, i: int, j: int)
    requires Lawful(h, book) && 0 <= i <= j < |h| && h[i].slot == h[j].slot
    requires h[j].slot.key in book && SlotCount(h[i..j + 1], h[j].slot) > book[h[j].slot.key].sustained
    ensures h[j].clock.us - h[i].clock.us > book[h[j].slot.key].windowUs
  {
    var slot, argv := h[j].slot, book[h[j].slot.key];
    var bound := h[j].clock.us - argv.windowUs;
    var earlier := h[..j];
    assert LawfulAt(h, book, j);
    assert SustainedAllows(earlier, argv, slot, h[j].clock);
    if bound <= h[i].clock.us {
      StretchIsCounted(earlier, slot, i, bound);
      StretchWithoutLast(h, i, j);
    }
  }

  /** The month total of a key never exceeds its quota, at any point of a run. */
  lemma {:induction false} QuotaBound(h: seq<Admission>, book: Book, km: KeyMonth, j: int)
    requires Lawful(h, book) && 0 <= j <= |h| && km.key in book
    ensures MonthSum(h[..j], km) <= book[km.key].hard
  {
    if j > 0 {
      QuotaBound(h, book, km, j - 1);
      assert h[..j][..j - 1] == h[..j - 1];
      assert LawfulAt(h, book, j - 1);
    }
  }

  ghost predicate WithinBounds(h: seq<Admission>, argv: Argv, i: int, j: int)
    requires 0 <= i <= j < |h|
  {
    var slot, span := h[j].slot, h[j].clock.us - h[i].clock.us;
    && SlotCost(h[i..j + 1], slot) * UTOK <= argv.cap + PerMicro(argv) * span
    && (SlotCount(h[i..j + 1], slot) > argv.sustained ==> span > argv.windowUs)
    && MonthSum(h, KeyMonth(slot.key, h[j].clock.month)) <= argv.hard
  }

  lemma LawfulIsWithinBounds(h: seq<Admission>, book: Book, i: int, j: int)
    requires Lawful(h, book) && 0 <= i <= j < |h| && h[i].slot == h[j].slot
    ensures h[j].slot.key in book && WithinBounds(h, book[h[j].slot.key], i, j)
  {
    BurstBound(h, book, i, j);
    if SlotCount(h[i..j + 1], h[j].slot) > book[h[j].slot.key].sustained {
      SlidingWindow(h, book, i, j);
    }
    QuotaBound(h, book, KeyMonth(h[j].slot.key, h[j].clock.month), |h|);
    assert h[..|h|] == h;
  }

  /** The three bounds hold of the checks that the script itself allowed. */
  lemma NoOverAdmission(es: seq<Event>, book: Book, i: int, j: int)
    requires ValidRun(es, book)
    requires 0 <= i <= j < |Admitted(es, book)| && Admitted(es, book)[i].slot == Admitted(es, book)[j].slot
    ensures Admitted(es, book)[j].slot.key in book
    ensures WithinBounds(Admitted(es, book), book[Admitted(es, book)[j].slot.key], i, j)
  {
    AdmittedIsHistory(es, book);
    RunsAreLawful(es, book);
    LawfulIsWithinBounds(Admitted(es, book), book, i, j);
  }

  /** The window set never outgrows the sustained limit. */
  lemma WindowSetIsBounded(es: seq<Event>, book: Book, slot: Slot)
    requires ValidRun(es, book) && slot.key in book
    ensures |Entries(ScriptRun(es, book).0, slot)| <= book[slot.key].sustained
  {
    ScriptRefinesSpec(es, book);
    if es != [] {
      assert SlotAgrees(ScriptRun(es, book).0, SpecRun(es, book).0, book[slot.key], slot, LastUs(es));
    }
  }
}
