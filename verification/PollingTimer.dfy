/**
 The polling timer: tick length, tracker map and counter loop, run in place.
 What a run fires is stated against the absolute schedule of module PollingCalendar.
 */
module PollingTimer {
  import opened Arithmetic
  import opened PollingCalendar

  ghost predicate Divides(k: nat, x: nat) {
    k > 0 && x % k == 0
  }

  predicate Sorted(list: seq<Entry>) {
    forall i, j :: 0 <= i < j < |list| ==> list[i].rec.interval <= list[j].rec.interval
  }

  function Slot(tracker: Tracker, s: nat): seq<Entry> {
    if s in tracker then tracker[s] else []
  }

  ghost function Count(tracker: Tracker, s: nat, e: Entry): nat {
    multiset(Slot(tracker, s))[e]
  }

  ghost predicate AllSorted(tracker: Tracker) {
    forall s :: s in tracker ==> Sorted(tracker[s])
  }

  /** After elapsed time `t` the slots the counter visits hold each pending entry once and nothing else. */
  ghost predicate Booked(tracker: Tracker, rs: seq<TimeRecord>, max: nat, t: nat)
    requires ValidRecords(rs)
  {
    forall s, e :: 1 <= s <= max ==>
      Count(tracker, s, e) == if e.rec in rs && Pending(e, s, t, max) then 1 else 0
  }

  /** The effect of a tick on the tracker, as counts: the visited slot is emptied, and each poll triggered
      from it books one poll and one cutoff of its record. */
  ghost predicate Rebooked(before: Tracker, after: Tracker, fired: seq<Entry>, counter: nat, max: nat)
    requires max > 0
  {
    forall s, e :: Count(after, s, e) ==
      (if s == counter then 0 else Count(before, s, e))
      + (if BookSlot(e, counter, max) == s then multiset(fired)[Entry(e.rec, true)] else 0)
  }

  ghost predicate DividesAll(k: nat, rs: seq<TimeRecord>) {
    k > 0 && forall i :: 0 <= i < |rs| ==> Divides(k, rs[i].interval) && Divides(k, rs[i].cutoff)
  }

  /** `g` is the gcd of all intervals and cutoffs: its divisors are their common divisors. */
  ghost predicate IsTick(g: nat, rs: seq<TimeRecord>) {
    g > 0 && forall k :: Divides(k, g) <==> DividesAll(k, rs)
  }

  lemma DividesAllExtend(k: nat, rs: seq<TimeRecord>, i: nat)
    requires i < |rs|
    ensures DividesAll(k, rs[..i + 1]) <==>
            DividesAll(k, rs[..i]) && Divides(k, rs[i].interval) && Divides(k, rs[i].cutoff)
    ensures DividesAll(k, rs) ==> DividesAll(k, rs[..i + 1])
  {
    assert rs[..i + 1] == rs[..i] + [rs[i]];
    if DividesAll(k, rs[..i + 1]) {
      assert rs[..i + 1][i] == rs[i];
      assert forall j :: 0 <= j < i ==> rs[..i][j] == rs[..i + 1][j];
    }
  }

  lemma TickDividesAll(g: nat, rs: seq<TimeRecord>, r: TimeRecord)
    requires ValidRecords(rs) && IsTick(g, rs) && r in rs
    ensures Ticks(g, r, MaxCounter(rs)) && Fits(r, MaxCounter(rs))
  {
    DivModUnique(g, g, 1, 0);
    assert Divides(g, g) && DividesAll(g, rs);
    var i :| 0 <= i < |rs| && rs[i] == r;
    assert Divides(g, rs[i].interval) && Divides(g, rs[|rs| - 1].interval);
  }

  lemma CommonDivisorStep(k: nat, a: nat, b: nat)
    requires a > 0
    ensures Divides(k, a) && Divides(k, b) <==> Divides(k, b % a) && Divides(k, a)
  {
    if k > 0 && a % k == 0 {
      RemainderDivides(k, a, b);
    }
  }

  /** Euclid's loop. The result has exactly the common divisors of the inputs as its divisors. */
  method Gcd(num1: nat, num2: nat) returns (g: nat)
    ensures forall k :: Divides(k, g) <==> Divides(k, num1) && Divides(k, num2)
    ensures g == 0 <==> num1 == 0 && num2 == 0
  {
    var a, b := num1, num2;
    while a != 0
      invariant forall k :: Divides(k, a) && Divides(k, b) <==> Divides(k, num1) && Divides(k, num2)
      invariant a == 0 && b == 0 <==> num1 == 0 && num2 == 0
      decreases a
    {
      forall k: nat {
        CommonDivisorStep(k, a, b);
      }
      a, b := b % a, a;
    }
    g := b;
  }

  lemma OneDividesAll()
    ensures forall x: nat :: Divides(1, x)
    ensures forall k: nat :: Divides(k, 1) <==> k == 1
  {
    forall k: nat ensures Divides(k, 1) <==> k == 1 {
      if k > 1 {
        DivModUnique(1, k, 0, 1);
      }
    }
  }

  lemma SortedConcat(low: seq<Entry>, high: seq<Entry>)
    requires Sorted(low) && Sorted(high)
    requires forall x, y :: x in low && y in high ==> x.rec.interval <= y.rec.interval
    ensures Sorted(low + high)
  {
  }

  lemma SortedParts(list: seq<Entry>, k: nat)
    requires Sorted(list) && k <= |list|
    ensures Sorted(list[..k]) && Sorted(list[k..])
    ensures forall x :: k > 0 && x in list[..k] ==> x.rec.interval <= list[k - 1].rec.interval
  {
  }

  lemma InsertKeepsSorted(list: seq<Entry>, k: nat, e: Entry)
    requires Sorted(list) && k <= |list|
    requires k > 0 ==> list[k - 1].rec.interval <= e.rec.interval
    requires forall j :: k <= j < |list| ==> list[j].rec.interval > e.rec.interval
    ensures Sorted(list[..k] + [e] + list[k..])
  {
    SortedParts(list, k);
    SortedConcat(list[..k], [e]);
    SortedConcat(list[..k] + [e], list[k..]);
  }

  lemma InsertKeepsMembers(list: seq<Entry>, k: nat, e: Entry)
    requires k <= |list|
    ensures multiset(list[..k] + [e] + list[k..]) == multiset(list) + multiset{e}
  {
    assert list == list[..k] + list[k..];
  }

  /** `std::sort` by interval: some sorted permutation; entries of one record may come in either order. */
  method SortByInterval(list: seq<Entry>) returns (sorted: seq<Entry>)
    ensures Sorted(sorted) && multiset(sorted) == multiset(list)
  {
    sorted := [];
    for i := 0 to |list|
      invariant Sorted(sorted) && multiset(sorted) == multiset(list[..i])
    {
      var k := |sorted|;
      while k > 0 && sorted[k - 1].rec.interval > list[i].rec.interval
        invariant 0 <= k <= |sorted|
        invariant forall j :: k <= j < |sorted| ==> sorted[j].rec.interval > list[i].rec.interval
      {
        k := k - 1;
      }
      assert list[..i + 1] == list[..i] + [list[i]];
      InsertKeepsSorted(sorted, k, list[i]);
      InsertKeepsMembers(sorted, k, list[i]);
      sorted := sorted[..k] + [list[i]] + sorted[k..];
    }
    assert list[..|list|] == list;
  }

  /** The records a slot's list polls, in list order. */
  function Polled(list: seq<Entry>): seq<TimeRecord> {
    if |list| == 0 then []
    else
      var last := list[|list| - 1];
      Polled(list[..|list| - 1]) + if last.polling then [last.rec] else []
  }

  lemma {:induction false} PolledCounts(list: seq<Entry>)
    ensures forall r :: multiset(Polled(list))[r] == multiset(list)[Entry(r, true)]
  {
    if list == [] {
    } else {
      var front, last := list[..|list| - 1], list[|list| - 1];
      assert list == front + [last];
      PolledCounts(front);
    }
  }

  /** A tick at elapsed time `t` triggered each entry that fires then, once, and nothing else. */
  ghost predicate FiredExactly(fired: seq<Entry>, rs: seq<TimeRecord>, t: nat)
    requires ValidRecords(rs)
  {
    forall e :: multiset(fired)[e] == if e.rec in rs && Fires(e, t, MaxCounter(rs)) then 1 else 0
  }

  /** The same tick against the absolute schedule. */
  ghost predicate OnSchedule(fired: seq<Entry>, rs: seq<TimeRecord>, t: nat)
    requires ValidRecords(rs)
  {
    forall r :: r in rs ==>
      && multiset(fired)[Entry(r, true)] == (if PollDue(r, t) then 1 else 0)
      && multiset(fired)[Entry(r, false)] == (if CutoffDue(r, t) then 1 else 0)
  }

  /** Every tick of every run is on schedule exactly when all cutoffs lie strictly between 0 and the
      longest interval. */
  lemma RunsOnSchedule(rs: seq<TimeRecord>, g: nat)
    requires ValidRecords(rs) && rs != [] && IsTick(g, rs)
    ensures
      (forall fired, t: nat :: t > 0 && t % g == 0 && FiredExactly(fired, rs, t) ==> OnSchedule(fired, rs, t))
      <==> forall r :: r in rs ==> 0 < r.cutoff < MaxCounter(rs)
  {
    var max := MaxCounter(rs);
    if r :| r in rs && !(0 < r.cutoff < max) {
      var fired, t := TickOffSchedule(rs, g, r);
      assert FiredExactly(fired, rs, t) && !OnSchedule(fired, rs, t);
    } else {
      forall fired, t: nat | t > 0 && FiredExactly(fired, rs, t)
        ensures OnSchedule(fired, rs, t)
      {
        forall r | r in rs
          ensures Fires(Entry(r, false), t, max) <==> CutoffDue(r, t)
        {
          CutoffWithinMax(r, t, max);
        }
      }
    }
  }

  lemma TickOffSchedule(rs: seq<TimeRecord>, g: nat, r: TimeRecord) returns (fired: seq<Entry>, t: nat)
    requires ValidRecords(rs) && IsTick(g, rs) && r in rs && !(0 < r.cutoff < MaxCounter(rs))
    ensures t > 0 && t % g == 0 && FiredExactly(fired, rs, t) && !OnSchedule(fired, rs, t)
  {
    var max := MaxCounter(rs);
    TickDividesAll(g, rs, r);
    t := CutoffMiss(r, max);
    fired := AllFiring(rs, rs, t);
    assert multiset(fired)[Entry(r, false)] == if Fires(Entry(r, false), t, max) then 1 else 0;
    if Fires(Entry(r, false), t, max) {
      FiresOnTick(Entry(r, false), t, g, max);
    } else {
      DueOnlyOnTicks(r, t, g, max);
    }
  }

  /** Some list of exactly the entries that fire at `t`. */
  ghost function AllFiring(rs: seq<TimeRecord>, all: seq<TimeRecord>, t: nat): (fired: seq<Entry>)
    requires ValidRecords(rs) && ValidRecords(all)
    ensures forall e :: multiset(fired)[e] == if e.rec in rs && Fires(e, t, MaxCounter(all)) then 1 else 0
  {
    if rs == [] then []
    else
      var front, last := rs[..|rs| - 1], rs[|rs| - 1];
      assert rs == front + [last];
      assert last !in front;
      AllFiring(front, all, t)
      + (if Fires(Entry(last, true), t, MaxCounter(all)) then [Entry(last, true)] else [])
      + (if Fires(Entry(last, false), t, MaxCounter(all)) then [Entry(last, false)] else [])
  }

  lemma TickAtStart(g: nat, rs: seq<TimeRecord>)
    requires ValidRecords(rs)
    requires if rs == [] then g == 1 else IsTick(g, rs)
    ensures g > 0 && MaxCounter(rs) % g == 0 && 0 % g == 0 && 0 % MaxCounter(rs) == 0
  {
    if rs != [] {
      TickDividesAll(g, rs, rs[0]);
    }
    DivModUnique(0, MaxCounter(rs), 0, 0);
  }

  /** The tick divides the limit, so the counter lands on it and the equality test always resets it. */
  lemma CounterStep(t: nat, g: nat, max: nat)
    requires g > 0 && max > 0 && max % g == 0 && t % g == 0
    ensures (t + g) % g == 0
    ensures t % max + g == SlotAt(t + g, max) <= max
    ensures (t + g) % max == if t % max + g == max then 0 else t % max + g
  {
    var c, q := t % max, t / max;
    var whole := q * max;
    assert t == whole + c;
    MultipleSum(t, g, g);
    IsMultiple(whole, max, q);
    MultipleTrans(whole, max, g);
    MultipleSum(t, whole, g);
    MultipleGap(c, max, g);
    SlotUnique(t + g, max, q, c + g);
    if c + g == max {
      assert t + g == (q + 1) * max;
      DivModUnique(t + g, max, q + 1, 0);
    } else {
      DivModUnique(t + g, max, q, c + g);
    }
  }

  /** One visit keeps the calendar exact and triggers exactly what fires. */
  lemma BookedStep(rs: seq<TimeRecord>, g: nat, t: nat, before: Tracker, after: Tracker, fired: seq<Entry>)
    requires ValidRecords(rs)
    requires if rs == [] then g == 1 else IsTick(g, rs)
    requires g > 0 && t % g == 0 && Booked(before, rs, MaxCounter(rs), t)
    requires 1 <= SlotAt(t + g, MaxCounter(rs)) && fired == Slot(before, SlotAt(t + g, MaxCounter(rs)))
    requires Rebooked(before, after, fired, SlotAt(t + g, MaxCounter(rs)), MaxCounter(rs))
    ensures Booked(after, rs, MaxCounter(rs), t + g)
    ensures FiredExactly(fired, rs, t + g)
  {
    var max := MaxCounter(rs);
    var c := SlotAt(t + g, max);
    forall e
      ensures multiset(fired)[e] == if e.rec in rs && Fires(e, t + g, max) then 1 else 0
    {
      assert multiset(fired)[e] == Count(before, c, e);
      if e.rec in rs {
        TickDividesAll(g, rs, e.rec);
        VisitedSlot(e, t, g, max);
      }
    }
    forall s, e | 1 <= s <= max
      ensures Count(after, s, e) == if e.rec in rs && Pending(e, s, t + g, max) then 1 else 0
    {
      var poll := Entry(e.rec, true);
      assert multiset(fired)[poll] == if e.rec in rs && Fires(poll, t + g, max) then 1 else 0;
      if e.rec in rs {
        TickDividesAll(g, rs, e.rec);
        PendingStep(e, s, t, g, max);
      }
    }
  }

  /** Milliseconds elapsed after `k` ticks of length `g`: `k * g`, written as the loop adds it up. */
  ghost function Elapsed(k: nat, g: nat): nat {
    if k == 0 then 0 else Elapsed(k - 1, g) + g
  }

  lemma ElapsedIsProduct(k: nat, g: nat)
    ensures Elapsed(k, g) == k * g
  {
  }

  class TimeMapper {
    const records: seq<TimeRecord>
    var tracker: Tracker

    ghost predicate Valid()
      reads this
    {
      ValidRecords(records) && AllSorted(tracker)
    }

    constructor (records: seq<TimeRecord>)
      requires ValidRecords(records)
      ensures Valid() && this.records == records && tracker == map[]
    {
      this.records := records;
      tracker := map[];
    }

    /** The timer's tick: the gcd of all intervals and cutoffs, leaving early once it is 1. */
    method MinTimerFrequency() returns (g: nat)
      requires ValidRecords(records)
      ensures if records == [] then g == 1 else IsTick(g, records)
    {
      g := 1;
      OneDividesAll();
      assert DividesAll(1, records);
      if |records| > 0 {
        g := Gcd(records[0].interval, records[0].cutoff);
        var i := 1;
        forall k: nat {
          DividesAllExtend(k, records, 0);
        }
        while i < |records|
          invariant 1 <= i <= |records| && g > 0
          invariant forall k :: Divides(k, g) <==> DividesAll(k, records[..i])
        {
          ghost var before := g;
          forall k: nat
            ensures DividesAll(k, records) ==>
                    Divides(k, before) && Divides(k, records[i].interval) && Divides(k, records[i].cutoff)
            ensures DividesAll(k, records[..i + 1]) <==>
                    Divides(k, before) && Divides(k, records[i].interval) && Divides(k, records[i].cutoff)
          {
            DividesAllExtend(k, records, i);
          }
          g := Gcd(records[i].interval, g);
          if g == 1 {
            return;
          }
          g := Gcd(records[i].cutoff, g);
          if g == 1 {
            return;
          }
          i := i + 1;
        }
        assert records[..i] == records;
      }
    }

    method AddToPollingTracker(slot: nat, r: TimeRecord, polling: bool)
      requires Valid()
      modifies this`tracker
      ensures Valid()
      ensures forall s, e :: Count(tracker, s, e) ==
                old(Count(tracker, s, e)) + if s == slot && e == Entry(r, polling) then 1 else 0
    {
      if slot !in tracker {
        tracker := tracker[slot := [Entry(r, polling)]];
      } else {
        var list := SortByInterval(tracker[slot] + [Entry(r, polling)]);
        tracker := tracker[slot := list];
      }
    }

    /** Copies a slot's list out and leaves the slot empty; false when the slot was never booked. */
    method GetPollingTrackerList(slot: nat) returns (found: bool, list: seq<Entry>)
      requires Valid()
      modifies this`tracker
      ensures Valid() && found == (slot in old(tracker)) && list == old(Slot(tracker, slot))
      ensures tracker == if found then old(tracker)[slot := []] else old(tracker)
    {
      found, list := slot in tracker, [];
      if found {
        list := tracker[slot];
        tracker := tracker[slot := []];
      }
    }

    /** Books the next poll and the cutoff of every record polled at `counter`, as often as it was polled. */
    method BookPolled(polled: seq<TimeRecord>, counter: nat, max: nat)
      requires Valid() && max > 0
      modifies this`tracker
      ensures Valid()
      ensures forall s, e :: Count(tracker, s, e) == old(Count(tracker, s, e))
                + if BookSlot(e, counter, max) == s then multiset(polled)[e.rec] else 0
    {
      for i := 0 to |polled|
        invariant Valid()
        invariant forall s, e :: Count(tracker, s, e) == old(Count(tracker, s, e))
                    + if BookSlot(e, counter, max) == s then multiset(polled[..i])[e.rec] else 0
      {
        var r := polled[i];
        AddToPollingTracker(NextPollSlot(counter, r, max), r, true);
        AddToPollingTracker(NextCutoffSlot(counter, r, max), r, false);
        assert polled[..i + 1] == polled[..i] + [r];
      }
      assert polled[..|polled|] == polled;
    }

    /** One visit: everything in the slot is triggered, then every polled record is booked again. */
    method CheckTimer(max: nat, counter: nat) returns (fired: seq<Entry>)
      requires Valid() && max > 0
      modifies this`tracker
      ensures Valid() && Sorted(fired)
      ensures fired == old(Slot(tracker, counter))
      ensures Rebooked(old(tracker), tracker, fired, counter, max)
    {
      var found, list := GetPollingTrackerList(counter);
      fired := [];
      var polled := [];
      for i := 0 to |list|
        invariant fired == list[..i] && polled == Polled(list[..i])
      {
        assert list[..i + 1][..i] == list[..i];
        fired := fired + [list[i]];
        if list[i].polling {
          polled := polled + [list[i].rec];
        }
      }
      assert list[..|list|] == list;
      PolledCounts(list);
      BookPolled(polled, counter, max);
    }

    /** Books every record's first poll; returns the longest interval, 0 when there is none. */
    method PreparePollingTracker() returns (max: nat)
      requires Valid() && tracker == map[]
      modifies this`tracker
      ensures Valid() && max == if records == [] then 0 else MaxCounter(records)
      ensures Booked(tracker, records, MaxCounter(records), 0)
    {
      max := 0;
      for i := 0 to |records|
        invariant Valid() && max == if i == 0 then 0 else records[i - 1].interval
        invariant forall s, e :: Count(tracker, s, e) ==
                    if e.rec in records[..i] && e.polling && s == e.rec.interval then 1 else 0
      {
        max := records[i].interval;
        AddToPollingTracker(max, records[i], true);
        assert records[i] !in records[..i];
        assert records[..i + 1] == records[..i] + [records[i]];
      }
      assert records[..|records|] == records;
      forall s, e: Entry | 1 <= s <= MaxCounter(records) && e.rec in records
        ensures Pending(e, s, 0, MaxCounter(records)) <==> e.polling && s == e.rec.interval
      {
        InitiallyPending(e, s, MaxCounter(records));
      }
    }

    /** One turn of the timer loop, at elapsed time `t` plus one tick. */
    method Tick(max: nat, counter: nat, interval: nat, ghost t: nat) returns (fired: seq<Entry>, next: nat)
      requires Valid() && max == MaxCounter(records)
      requires if records == [] then interval == 1 else IsTick(interval, records)
      requires interval > 0 && t % interval == 0 && counter == t % max
      requires Booked(tracker, records, max, t)
      modifies this`tracker
      ensures Valid() && Booked(tracker, records, max, t + interval)
      ensures (t + interval) % interval == 0 && next == (t + interval) % max
      ensures Sorted(fired) && FiredExactly(fired, records, t + interval)
    {
      TickAtStart(interval, records);
      CounterStep(t, interval, max);
      ghost var before := tracker;
      next := counter + interval;
      fired := CheckTimer(max, next);
      BookedStep(records, interval, t, before, tracker, fired);
      if next == max {
        next := 0;
      }
    }

    /** The timer loop for a number of ticks: what each tick triggered, in order. */
    method TimerThread(interval: nat, ticks: nat) returns (log: seq<seq<Entry>>)
      requires Valid() && tracker == map[]
      requires if records == [] then interval == 1 else IsTick(interval, records)
      modifies this`tracker
      ensures Valid() && |log| == ticks
      ensures forall k :: 0 <= k < ticks ==> Sorted(log[k]) && FiredExactly(log[k], records, (k + 1) * interval)
      ensures Booked(tracker, records, MaxCounter(records), ticks * interval)
    {
      var max := PreparePollingTracker();
      if max == 0 {
        max := 1;
      }
      var counter := 0;
      log := [];
      TickAtStart(interval, records);
      for k := 0 to ticks
        invariant Valid() && |log| == k && max == MaxCounter(records)
        invariant Elapsed(k, interval) % interval == 0 && counter == Elapsed(k, interval) % max
        invariant Booked(tracker, records, max, Elapsed(k, interval))
        invariant forall j :: 0 <= j < k ==>
                    Sorted(log[j]) && FiredExactly(log[j], records, Elapsed(j + 1, interval))
      {
        var fired;
        fired, counter := Tick(max, counter, interval, Elapsed(k, interval));
        log := log + [fired];
      }
      forall k | 0 <= k < ticks
        ensures FiredExactly(log[k], records, (k + 1) * interval)
      {
        ElapsedIsProduct(k + 1, interval);
      }
      ElapsedIsProduct(ticks, interval);
    }
  }
}
