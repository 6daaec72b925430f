/**
 The arithmetic of the polling calendar: a millisecond counter that wraps at the longest polling
 interval, and a map from counter values ("slots") to the polls and cutoffs booked there.
 Everything here is about values; class `TimeMapper` runs it in place.
 */
module PollingCalendar {
  import opened Arithmetic

  const UINT32: nat := 0x1_0000_0000
  const UINT31: nat := 0x8000_0000

  /** One entry of the time-record map: all points polled every `interval` milliseconds. */
  datatype TimeRecord = TimeRecord(interval: nat, cutoff: nat)

  /** What a slot holds: a poll of the record, or the cutoff check of an earlier poll. */
  datatype Entry = Entry(rec: TimeRecord, polling: bool)

  type Tracker = map<nat, seq<Entry>>

  /** The time-record map in its iteration order: distinct intervals, ascending. */
  predicate ValidRecords(rs: seq<TimeRecord>) {
    && (forall i :: 0 <= i < |rs| ==> 0 < rs[i].interval < UINT31 && rs[i].cutoff < UINT31)
    && (forall i, j :: 0 <= i < j < |rs| ==> rs[i].interval < rs[j].interval)
  }

  /** The counter's limit: the longest interval, or 1 when nothing is polled. */
  function MaxCounter(rs: seq<TimeRecord>): nat {
    if |rs| == 0 then 1 else rs[|rs| - 1].interval
  }

  function NextPollSlot(c: nat, r: TimeRecord, max: nat): nat
    requires max > 0
  {
    var next := if c == max && max == r.interval then max else (c + r.interval) % UINT32;
    if next > max then next % max else next
  }

  function NextCutoffSlot(c: nat, r: TimeRecord, max: nat): nat
    requires max > 0
  {
    var next := (c + r.cutoff) % UINT32;
    if next > max then next % max else next
  }

  function BookSlot(e: Entry, c: nat, max: nat): nat
    requires max > 0
  {
    if e.polling then NextPollSlot(c, e.rec, max) else NextCutoffSlot(c, e.rec, max)
  }

  /** A record polled at elapsed time `t`, by the absolute schedule. */
  predicate PollDue(r: TimeRecord, t: int)
    requires r.interval > 0
  {
    t > 0 && t % r.interval == 0
  }

  /** The cutoff of an earlier poll is reached at elapsed time `t`, by the absolute schedule. */
  predicate CutoffDue(r: TimeRecord, t: int)
    requires r.interval > 0
  {
    PollDue(r, t - r.cutoff)
  }

  // ----- the wrapped counter against elapsed time -----

  /** The counter value seen by the tick at elapsed time `t`. */
  function SlotAt(t: int, max: nat): nat
    requires t > 0 && max > 0
  {
    (t - 1) % max + 1
  }

  /** The first time after `t` at which the counter reads `s`. */
  function NextVisit(s: nat, t: nat, max: nat): nat
    requires 1 <= s <= max
  {
    var c := t % max;
    if s > c then t - c + s else t - c + max + s
  }

  lemma SlotUnique(t: int, max: nat, q: int, s: nat)
    requires t > 0 && 1 <= s <= max && t == q * max + s
    ensures SlotAt(t, max) == s
  {
    DivModUnique(t - 1, max, q, s - 1);
  }

  lemma VisitIsNext(s: nat, t: nat, max: nat)
    requires 1 <= s <= max
    ensures t < NextVisit(s, t, max) <= t + max
    ensures SlotAt(NextVisit(s, t, max), max) == s
  {
    var c, q := t % max, t / max;
    assert t - c == q * max;
    assert t - c + max == (q + 1) * max;
    SlotUnique(NextVisit(s, t, max), max, if s > c then q else q + 1, s);
  }

  lemma SameRemainder(v: int, w: int, a: int, b: int, m: nat, s: int)
    requires v == a * m + s && w == b * m + s && 0 - m < v - w < m
    ensures v == w
  {
    var d := a - b;
    assert d * m == v - w;
    Scaled(d, m);
  }

  lemma VisitUnique(v: int, s: nat, t: nat, max: nat)
    requires 1 <= s <= max && t < v <= t + max && SlotAt(v, max) == s
    ensures v == NextVisit(s, t, max)
  {
    var w := NextVisit(s, t, max);
    VisitIsNext(s, t, max);
    var a, b := (v - 1) / max, (w - 1) / max;
    SameRemainder(v, w, a, b, max, s);
  }

  // ----- what the code fires, in absolute time -----

  /** How long after its poll a booked cutoff is found, when its slot is one the counter visits. */
  function Delay(r: TimeRecord, max: nat): (d: nat)
    requires max > 0
    ensures 1 <= d <= max
  {
    if r.cutoff % max == 0 then max else r.cutoff % max
  }

  function Gap(e: Entry, max: nat): nat
    requires max > 0
  {
    if e.polling then e.rec.interval else Delay(e.rec, max)
  }

  /** The tick at elapsed time `t` finds entry `e` in its slot. */
  predicate Fires(e: Entry, t: int, max: nat)
    requires max > 0 && e.rec.interval > 0
  {
    if e.polling then PollDue(e.rec, t)
    else
      var p := t - Delay(e.rec, max);
      PollDue(e.rec, p) && NextCutoffSlot(SlotAt(p, max), e.rec, max) != 0
  }

  /** After the ticks up to elapsed time `t`, slot `s` holds entry `e`. */
  predicate Pending(e: Entry, s: nat, t: nat, max: nat)
    requires e.rec.interval > 0 && 1 <= s <= max
  {
    var v := NextVisit(s, t, max);
    Fires(e, v, max) && v - Gap(e, max) <= t
  }

  ghost predicate Fits(r: TimeRecord, max: nat) {
    0 < r.interval <= max < UINT31 && r.cutoff < UINT31
  }

  /** The tick length `g` divides the counter's limit, the interval and the cutoff. */
  ghost predicate Ticks(g: nat, r: TimeRecord, max: nat) {
    g > 0 && max % g == 0 && r.interval % g == 0 && r.cutoff % g == 0
  }

  lemma NextPollSlotValue(c: nat, r: TimeRecord, max: nat)
    requires Fits(r, max) && 1 <= c <= max
    ensures NextPollSlot(c, r, max) ==
            if c + r.interval <= max then c + r.interval
            else if c == max && r.interval == max then max
            else c + r.interval - max
  {
    if c + r.interval > max && (c != max || r.interval != max) {
      DivModUnique(c + r.interval, max, 1, c + r.interval - max);
    }
  }

  lemma NextCutoffSlotValue(c: nat, r: TimeRecord, max: nat)
    requires Fits(r, max) && 1 <= c <= max
    ensures NextCutoffSlot(c, r, max) ==
            if c + r.cutoff <= max then c + r.cutoff else (c + r.cutoff) % max
  {
  }

  lemma DelayValue(r: TimeRecord, max: nat)
    requires Fits(r, max)
    ensures 0 < r.cutoff < max ==> Delay(r, max) == r.cutoff
    ensures r.cutoff == 0 || r.cutoff == max ==> Delay(r, max) == max
  {
    if r.cutoff < max {
      DivModUnique(r.cutoff, max, 0, r.cutoff);
    } else if r.cutoff == max {
      DivModUnique(max, max, 1, 0);
    }
  }

  lemma PolledSlot(r: TimeRecord, t: int, max: nat)
    requires Fits(r, max) && t > 0
    ensures 1 <= NextPollSlot(SlotAt(t, max), r, max) <= max
    ensures SlotAt(t + r.interval, max) == NextPollSlot(SlotAt(t, max), r, max)
  {
    var c, q := SlotAt(t, max), (t - 1) / max;
    assert t == q * max + c;
    NextPollSlotValue(c, r, max);
    if c + r.interval <= max {
      SlotUnique(t + r.interval, max, q, c + r.interval);
    } else {
      assert t + r.interval == (q + 1) * max + (c + r.interval - max);
      SlotUnique(t + r.interval, max, q + 1, c + r.interval - max);
    }
  }

  lemma CutoffSlot(r: TimeRecord, t: int, max: nat)
    requires Fits(r, max) && t > 0
    ensures
      var s := NextCutoffSlot(SlotAt(t, max), r, max);
      s <= max && (s != 0 ==> SlotAt(t + Delay(r, max), max) == s)
  {
    var c, q := SlotAt(t, max), (t - 1) / max;
    assert t == q * max + c;
    NextCutoffSlotValue(c, r, max);
    if c + r.cutoff > max {
      if NextCutoffSlot(c, r, max) != 0 {
        WrappedCutoff(c, r, q, t, max);
      }
    } else {
      DelayValue(r, max);
      if r.cutoff == 0 {
        assert t + max == (q + 1) * max + c;
        SlotUnique(t + max, max, q + 1, c);
      } else {
        SlotUnique(t + r.cutoff, max, q, c + r.cutoff);
      }
    }
  }

  /** A poll at `t` books slots that the counter next visits exactly `Gap` later, or slot 0. */
  lemma BookedSlot(e: Entry, t: int, max: nat)
    requires Fits(e.rec, max) && t > 0
    ensures
      var s := BookSlot(e, SlotAt(t, max), max);
      s <= max && (s != 0 ==> SlotAt(t + Gap(e, max), max) == s)
    ensures e.polling ==> BookSlot(e, SlotAt(t, max), max) != 0
  {
    if e.polling {
      PolledSlot(e.rec, t, max);
    } else {
      CutoffSlot(e.rec, t, max);
    }
  }

  lemma Regroup(q: int, k: int, j: int, max: nat, a: int, b: int, d: int)
    requires a == q * max && b == k * max && d == j * max
    ensures (q + k - j) * max == a + b - d
    ensures (q + k - j + 1) * max == a + b - d + max
  {
    var n := q + k - j;
    assert n * max == a + b - d;
    assert (n + 1) * max == n * max + max;
  }

  lemma WrappedCutoff(c: nat, r: TimeRecord, q: int, t: int, max: nat)
    requires Fits(r, max) && t > 0 && 1 <= c <= max && t == q * max + c && c + r.cutoff > max
    requires NextCutoffSlot(c, r, max) != 0
    ensures SlotAt(t + Delay(r, max), max) == NextCutoffSlot(c, r, max)
  {
    NextCutoffSlotValue(c, r, max);
    WrappedSlot(c, r.cutoff, q, t, max, (c + r.cutoff) % max, r.cutoff % max);
  }

  lemma WrappedSlot(c: nat, cutoff: nat, q: int, t: int, max: nat, s: nat, rest: nat)
    requires max > 0 && t > 0 && t == q * max + c && 1 <= s == (c + cutoff) % max && rest == cutoff % max
    ensures SlotAt(t + if rest == 0 then max else rest, max) == s
  {
    var n := WrapCount(c, cutoff, q, t, max);
    if rest == 0 {
      SlotUnique(t + max, max, n + 1, s);
    } else {
      SlotUnique(t + rest, max, n, s);
    }
  }

  /** Full rounds between the start and the cutoff's slot. */
  lemma WrapCount(c: nat, cutoff: nat, q: int, t: int, max: nat) returns (n: int)
    requires max > 0 && t == q * max + c
    ensures t + cutoff % max == n * max + (c + cutoff) % max
    ensures t + cutoff % max + max == (n + 1) * max + (c + cutoff) % max
  {
    var k, j := (c + cutoff) / max, cutoff / max;
    n := q + k - j;
    Regroup(q, k, j, max, q * max, k * max, j * max);
  }

  lemma GapOnTick(e: Entry, g: nat, max: nat)
    requires Fits(e.rec, max) && Ticks(g, e.rec, max)
    ensures Gap(e, max) % g == 0
  {
    if !e.polling {
      var q := e.rec.cutoff / max;
      var whole := q * max;
      assert e.rec.cutoff % max == e.rec.cutoff - whole;
      IsMultiple(whole, max, q);
      MultipleTrans(whole, max, g);
      MultipleSum(e.rec.cutoff, whole, g);
    }
  }

  /** What fires was booked by a poll exactly `Gap` earlier, both on ticks. */
  lemma FiresOnTick(e: Entry, v: int, g: nat, max: nat)
    requires Fits(e.rec, max) && Ticks(g, e.rec, max) && Fires(e, v, max)
    ensures v % g == 0 && (v - Gap(e, max)) % g == 0 && (v - Gap(e, max)) % e.rec.interval == 0
  {
    var p := v - Gap(e, max);
    if e.polling {
      ModShift(v, e.rec.interval);
    }
    MultipleTrans(p, e.rec.interval, g);
    GapOnTick(e, g, max);
    MultipleSum(p, Gap(e, max), g);
  }

  /** Slots that are not a multiple of the tick stay empty. */
  lemma SlotOnTick(t: int, g: nat, max: nat)
    requires t > 0 && max > 0 && g > 0 && max % g == 0 && t % g == 0
    ensures SlotAt(t, max) % g == 0
  {
    var q := (t - 1) / max;
    var whole := q * max;
    assert SlotAt(t, max) == t - whole;
    IsMultiple(whole, max, q);
    MultipleTrans(whole, max, g);
    MultipleSum(t, whole, g);
  }

  /** A booking made at `u` is the next visit of its slot, and fires there. */
  lemma BookedThenFires(e: Entry, s: nat, u: int, max: nat)
    requires Fits(e.rec, max) && u > 0 && u % e.rec.interval == 0
    requires 1 <= s <= max && BookSlot(e, SlotAt(u, max), max) == s
    ensures NextVisit(s, u, max) == u + Gap(e, max) && Fires(e, u + Gap(e, max), max)
  {
    BookedSlot(e, u, max);
    VisitUnique(u + Gap(e, max), s, u, max);
    if e.polling {
      ModShift(u, e.rec.interval);
    }
  }

  lemma VisitUnmoved(s: nat, t: nat, g: nat, max: nat)
    requires g > 0 && max > 0 && max % g == 0 && t % g == 0
    requires 1 <= s <= max && s % g == 0 && s != SlotAt(t + g, max)
    ensures NextVisit(s, t, max) == NextVisit(s, t + g, max) > t + g
  {
    var v := NextVisit(s, t, max);
    VisitIsNext(s, t, max);
    var q := (v - 1) / max;
    var whole := q * max;
    assert v == whole + s;
    IsMultiple(whole, max, q);
    MultipleTrans(whole, max, g);
    MultipleSum(whole, s, g);
    MultipleGap(t, v, g);
    VisitUnique(v, s, t + g, max);
  }

  /** A booking made by the tick at `u` was not there before it. */
  lemma BookingIsNew(e: Entry, s: nat, t: nat, g: nat, max: nat)
    requires Fits(e.rec, max) && Ticks(g, e.rec, max) && t % g == 0 && 1 <= s <= max
    requires (t + g) % e.rec.interval == 0 && BookSlot(e, SlotAt(t + g, max), max) == s
    ensures Pending(e, s, t + g, max)
    ensures s != SlotAt(t + g, max) ==> !Pending(e, s, t, max)
  {
    var u := t + g;
    BookedThenFires(e, s, u, max);
    VisitIsNext(s, u, max);
    FiresOnTick(e, u + Gap(e, max), g, max);
    SlotOnTick(u + Gap(e, max), g, max);
    if s != SlotAt(u, max) {
      VisitUnmoved(s, t, g, max);
    }
  }

  /** What is pending after the tick at `u` was pending before, or the tick booked it. */
  lemma PendingOrigin(e: Entry, s: nat, t: nat, g: nat, max: nat)
    requires Fits(e.rec, max) && Ticks(g, e.rec, max) && t % g == 0 && 1 <= s <= max
    requires Pending(e, s, t + g, max)
    ensures
      || (s != SlotAt(t + g, max) && Pending(e, s, t, max))
      || ((t + g) % e.rec.interval == 0 && BookSlot(e, SlotAt(t + g, max), max) == s)
  {
    var u := t + g;
    var v := NextVisit(s, u, max);
    var p := v - Gap(e, max);
    VisitIsNext(s, u, max);
    FiresOnTick(e, v, g, max);
    SlotOnTick(v, g, max);
    if p > t {
      MultipleGap(t, p, g);
      BookedSlot(e, u, max);
    } else {
      if s == SlotAt(u, max) {
        VisitUnique(u + max, s, u, max) by { SameSlotNextRound(u, max); }
      } else {
        VisitUnmoved(s, t, g, max);
      }
    }
  }

  lemma SameSlotNextRound(u: int, max: nat)
    requires u > 0 && max > 0
    ensures SlotAt(u + max, max) == SlotAt(u, max)
  {
    ModShift(u - 1, max);
  }

  /** An entry of a slot that the tick does not visit stays. */
  lemma PendingStays(e: Entry, s: nat, t: nat, g: nat, max: nat)
    requires Fits(e.rec, max) && Ticks(g, e.rec, max) && t % g == 0 && 1 <= s <= max
    requires s != SlotAt(t + g, max) && Pending(e, s, t, max)
    ensures Pending(e, s, t + g, max)
  {
    var v := NextVisit(s, t, max);
    VisitIsNext(s, t, max);
    FiresOnTick(e, v, g, max);
    SlotOnTick(v, g, max);
    VisitUnmoved(s, t, g, max);
  }

  /** One tick, seen from one slot: what it holds is what it held, unless visited, plus the new bookings. */
  lemma PendingStep(e: Entry, s: nat, t: nat, g: nat, max: nat)
    requires Fits(e.rec, max) && Ticks(g, e.rec, max) && t % g == 0 && 1 <= s <= max
    ensures
      var c := SlotAt(t + g, max);
      var kept := s != c && Pending(e, s, t, max);
      var booked := (t + g) % e.rec.interval == 0 && BookSlot(e, c, max) == s;
      (Pending(e, s, t + g, max) <==> kept || booked) && !(kept && booked)
  {
    var c := SlotAt(t + g, max);
    if (t + g) % e.rec.interval == 0 && BookSlot(e, c, max) == s {
      BookingIsNew(e, s, t, g, max);
    } else if s != c && Pending(e, s, t, max) {
      PendingStays(e, s, t, g, max);
    } else if Pending(e, s, t + g, max) {
      PendingOrigin(e, s, t, g, max);
    }
  }

  /** The visited slot holds exactly what fires now. */
  lemma VisitedSlot(e: Entry, t: nat, g: nat, max: nat)
    requires Fits(e.rec, max) && Ticks(g, e.rec, max) && t % g == 0
    ensures Pending(e, SlotAt(t + g, max), t, max) <==> Fires(e, t + g, max)
  {
    MultipleGap(0, max, g);
    VisitUnique(t + g, SlotAt(t + g, max), t, max);
    if Fires(e, t + g, max) {
      FiresOnTick(e, t + g, g, max);
      MultipleGap(t + g - Gap(e, max), t + g, g);
    }
  }

  /** Before the first tick only the first polls are booked. */
  lemma InitiallyPending(e: Entry, s: nat, max: nat)
    requires Fits(e.rec, max) && 1 <= s <= max
    ensures Pending(e, s, 0, max) <==> e.polling && s == e.rec.interval
  {
    var i := e.rec.interval;
    DivModUnique(0, max, 0, 0);
    DivModUnique(i, i, 1, 0);
    assert NextVisit(s, 0, max) == s;
    if e.polling && s <= i && PollDue(e.rec, s) {
      MultipleGap(0, s, i);
    }
  }

  // ----- the code's schedule against the absolute one -----

  /** Polls follow the absolute schedule, whatever the other intervals are; so do cutoffs, for all
      elapsed times, exactly when the record's cutoff lies strictly between 0 and the longest interval. */
  lemma CutoffScheduleExact(r: TimeRecord, max: nat)
    requires Fits(r, max)
    ensures (forall t | t > 0 :: Fires(Entry(r, false), t, max) <==> CutoffDue(r, t)) <==> 0 < r.cutoff < max
  {
    if 0 < r.cutoff < max {
      forall t | t > 0
        ensures Fires(Entry(r, false), t, max) <==> CutoffDue(r, t)
      {
        CutoffWithinMax(r, t, max);
      }
    } else {
      var t := CutoffMiss(r, max);
      assert !(Fires(Entry(r, false), t, max) <==> CutoffDue(r, t));
    }
  }

  lemma CutoffWithinMax(r: TimeRecord, t: int, max: nat)
    requires Fits(r, max) && t > 0 && 0 < r.cutoff < max
    ensures Fires(Entry(r, false), t, max) <==> CutoffDue(r, t)
  {
    var p := t - r.cutoff;
    DelayValue(r, max);
    if p > 0 {
      var w := SlotAt(p, max) + r.cutoff;
      NextCutoffSlotValue(SlotAt(p, max), r, max);
      if w > max {
        DivModUnique(w, max, 1, w - max);
      }
    }
  }

  /** A cutoff as long as the longest interval is due at this time, and is not triggered. */
  lemma CutoffAtMaxIsLost(r: TimeRecord, max: nat)
    requires Fits(r, max) && r.cutoff == max
    ensures
      var t := r.interval * max + max;
      t > 0 && !Fires(Entry(r, false), t, max) && CutoffDue(r, t)
  {
    var i := r.interval;
    var p := i * max;
    assert p >= max by { Scaled(i, max); }
    IsMultiple(p, i, max);
    assert p == (i - 1) * max + max;
    SlotUnique(p, max, i - 1, max);
    DelayValue(r, max);
    NextCutoffSlotValue(max, r, max);
    DivModUnique(max + max, max, 2, 0);
  }

  /** At a cutoff equal to the longest interval, every poll made at the limit books its cutoff in slot 0, which
      the counter never reads, and that cutoff is not triggered. */
  lemma LostAtLimit(r: TimeRecord, u: int, max: nat)
    requires Fits(r, max) && r.cutoff == max && u > 0 && SlotAt(u, max) == max
    ensures BookSlot(Entry(r, false), SlotAt(u, max), max) == 0
    ensures !Fires(Entry(r, false), u + max, max)
    ensures PollDue(r, u) ==> CutoffDue(r, u + max)
  {
    DelayValue(r, max);
    NextCutoffSlotValue(max, r, max);
    DivModUnique(max + max, max, 2, 0);
  }

  /** A record with the longest interval and a cutoff of 100 % never has a cutoff triggered. */
  lemma FullCutoffNeverFires(r: TimeRecord, t: int, max: nat)
    requires Fits(r, max) && r.cutoff == r.interval == max && t > 0
    ensures !Fires(Entry(r, false), t, max)
  {
    var u := t - max;
    DelayValue(r, max);
    if PollDue(r, u) {
      var q := u / max;
      assert u == (q - 1) * max + max;
      SlotUnique(u, max, q - 1, max);
      LostAtLimit(r, u, max);
    }
  }

  /** A longer one fires too early, after its first poll... */
  lemma LongCutoffIsEarly(r: TimeRecord, max: nat)
    requires Fits(r, max) && r.cutoff > max && NextCutoffSlot(r.interval, r, max) != 0
    ensures
      var t := r.interval + Delay(r, max);
      Fires(Entry(r, false), t, max) && !CutoffDue(r, t)
  {
    var i := r.interval;
    SlotUnique(i, max, 0, i);
    DivModUnique(i, i, 1, 0);
    if CutoffDue(r, i + Delay(r, max)) {
      MultipleGap(0, i + Delay(r, max) - r.cutoff, i);
    }
  }

  /** ... or is lost in slot 0. */
  lemma LongCutoffIsLost(r: TimeRecord, max: nat)
    requires Fits(r, max) && r.cutoff > max && NextCutoffSlot(r.interval, r, max) == 0
    ensures
      var t := r.interval + r.cutoff;
      !Fires(Entry(r, false), t, max) && CutoffDue(r, t)
  {
    var i, rest := r.interval, r.cutoff % max;
    var k := r.cutoff / max - (if rest == 0 then 1 else 0);
    var p := i + r.cutoff - Delay(r, max);
    assert k * max == r.cutoff - Delay(r, max);
    Scaled(k, max);
    assert p == k * max + i;
    SlotUnique(p, max, k, i);
    DivModUnique(i, i, 1, 0);
  }

  /** A time at which the code's cutoff check and the schedule's differ. */
  lemma CutoffMiss(r: TimeRecord, max: nat) returns (t: int)
    requires Fits(r, max) && !(0 < r.cutoff < max)
    ensures t > 0 && Fires(Entry(r, false), t, max) != CutoffDue(r, t)
  {
    if r.cutoff == 0 {
      t := r.interval;
      DelayValue(r, max);
      DivModUnique(t, t, 1, 0);
    } else if r.cutoff == max {
      t := r.interval * max + max;
      CutoffAtMaxIsLost(r, max);
    } else if NextCutoffSlot(r.interval, r, max) != 0 {
      t := r.interval + Delay(r, max);
      LongCutoffIsEarly(r, max);
    } else {
      t := r.interval + r.cutoff;
      LongCutoffIsLost(r, max);
    }
  }

  /** Nothing is due between ticks, so looking only at ticks misses nothing. */
  lemma DueOnlyOnTicks(r: TimeRecord, t: int, g: nat, max: nat)
    requires Fits(r, max) && Ticks(g, r, max)
    requires PollDue(r, t) || CutoffDue(r, t)
    ensures t % g == 0
  {
    if PollDue(r, t) {
      MultipleTrans(t, r.interval, g);
    } else {
      MultipleTrans(t - r.cutoff, r.interval, g);
      MultipleSum(t - r.cutoff, r.cutoff, g);
    }
  }

  // ----- the calendar stays bounded -----

  /** No booking lies beyond the limit, and only cutoffs at or beyond it can end up in slot 0. */
  lemma BookedInRange(e: Entry, t: int, max: nat)
    requires Fits(e.rec, max) && t > 0
    ensures BookSlot(e, SlotAt(t, max), max) <= max
    ensures e.polling || e.rec.cutoff < max ==> 1 <= BookSlot(e, SlotAt(t, max), max)
  {
    if e.polling {
      BookedSlot(e, t, max);
    } else {
      var w := SlotAt(t, max) + e.rec.cutoff;
      NextCutoffSlotValue(SlotAt(t, max), e.rec, max);
      if w > max && e.rec.cutoff < max {
        DivModUnique(w, max, 1, w - max);
      }
    }
  }

  /** Between ticks exactly one slot holds the record's poll: the slot of its next multiple. */
  lemma OnePollPending(r: TimeRecord, s: nat, t: nat, max: nat)
    requires Fits(r, max) && 1 <= s <= max
    ensures
      var next := (t / r.interval + 1) * r.interval;
      t < next <= t + r.interval
      && (Pending(Entry(r, true), s, t, max) <==> s == SlotAt(next, max))
  {
    var i, v := r.interval, NextVisit(s, t, max);
    var next := (t / i + 1) * i;
    assert next == t / i * i + i;
    assert t == t / i * i + t % i;
    IsMultiple(next, i, t / i + 1);
    VisitIsNext(s, t, max);
    if s == SlotAt(next, max) {
      VisitUnique(next, s, t, max);
    }
    if Pending(Entry(r, true), s, t, max) {
      if v < next { MultipleGap(v, next, i); }
      if next < v { MultipleGap(next, v, i); }
    }
  }

  /** ... and at most one slot holds its cutoff, when the cutoff is shorter than the interval. */
  lemma OneCutoffPending(r: TimeRecord, s1: nat, s2: nat, t: nat, max: nat)
    requires Fits(r, max) && 0 < r.cutoff <= r.interval && r.cutoff < max && 1 <= s1 <= max && 1 <= s2 <= max
    requires Pending(Entry(r, false), s1, t, max) && Pending(Entry(r, false), s2, t, max)
    ensures s1 == s2
  {
    var p1, p2 := NextVisit(s1, t, max) - r.cutoff, NextVisit(s2, t, max) - r.cutoff;
    VisitIsNext(s1, t, max);
    VisitIsNext(s2, t, max);
    DelayValue(r, max);
    if p1 < p2 { MultipleGap(p1, p2, r.interval); }
    if p2 < p1 { MultipleGap(p2, p1, r.interval); }
  }

  /** After the k-th poll and up to the next one the record's cutoff fires exactly once, one cutoff later. */
  lemma OneCutoffPerCycle(r: TimeRecord, k: nat, t: int, max: nat)
    requires Fits(r, max) && 0 < r.cutoff <= r.interval && r.cutoff < max
    requires k > 0 && k * r.interval < t <= k * r.interval + r.interval
    ensures Fires(Entry(r, false), t, max) <==> t == k * r.interval + r.cutoff
  {
    var p := k * r.interval;
    CutoffWithinMax(r, t, max);
    Scaled(k, r.interval);
    IsMultiple(p, r.interval, k);
    CutoffAfterPoll(r, p, t);
  }

  lemma CutoffAfterPoll(r: TimeRecord, p: nat, t: int)
    requires 0 < r.cutoff <= r.interval && p % r.interval == 0 && r.interval <= p < t <= p + r.interval
    ensures CutoffDue(r, t) <==> t == p + r.cutoff
  {
    var u := t - r.cutoff;
    if CutoffDue(r, t) {
      if u < p {
        MultipleGap(u, p, r.interval);
      } else if p < u {
        MultipleGap(p, u, r.interval);
      }
    }
  }
}
