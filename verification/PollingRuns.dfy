/**
 The calendar and the request protocol together: runs whose polls and cutoffs of a point come when the
 calendar triggers them.
 */
module PollingRuns {
  import opened Arithmetic
  import opened PollingCalendar
  import opened PollProtocol

  predicate IsPollOf(step: Step, p: TxId) {
    step.DoPoll? && step.point == p
  }

  /** `times` are the elapsed times of the steps. The point `p` of record `r` is polled when a poll of `r`
      fires, once each time, and its cutoff is handled whenever a cutoff of `r` fires during the run. */
  ghost predicate InCalendarOrder(steps: seq<Step>, times: seq<nat>, p: TxId, r: TimeRecord, max: nat)
    requires max > 0 && r.interval > 0
  {
    && |times| == |steps|
    && (forall i, j :: 0 <= i < j < |steps| ==> times[i] <= times[j])
    && (forall i :: 0 <= i < |steps| && IsPollOf(steps[i], p) ==> Fires(Entry(r, true), times[i], max))
    && (forall i, j :: 0 <= i < j < |steps| && IsPollOf(steps[i], p) && IsPollOf(steps[j], p) ==> times[i] < times[j])
    && (forall i, t: nat :: 0 <= i < |steps| && t <= times[i] && Fires(Entry(r, false), t, max) ==>
          CutoffHandled(steps, times, p, t))
  }

  ghost predicate CutoffHandled(steps: seq<Step>, times: seq<nat>, p: TxId, t: nat)
    requires |times| == |steps|
  {
    exists i :: 0 <= i < |steps| && times[i] == t && steps[i] == DoCutoff(p)
  }

  /** Two polls of `p` with none in between. */
  ghost predicate Consecutive(steps: seq<Step>, p: TxId, a: nat, b: nat) {
    && a < b < |steps| && IsPollOf(steps[a], p) && IsPollOf(steps[b], p)
    && forall i :: a < i < b ==> !IsPollOf(steps[i], p)
  }

  /** With the cutoff between zero and the interval every cycle contains its cutoff. */
  lemma CycleHasCutoff(steps: seq<Step>, times: seq<nat>, p: TxId, r: TimeRecord, max: nat, a: nat, b: nat)
    requires Fits(r, max) && 0 < r.cutoff < r.interval
    requires InCalendarOrder(steps, times, p, r, max) && Consecutive(steps, p, a, b)
    ensures IsCycle(steps[a..b], p) && DoCutoff(p) in steps[a..b]
  {
    var t := times[a] + r.cutoff;
    MultipleGap(times[a], times[b], r.interval);
    assert Fires(Entry(r, false), t, max) by {
      CutoffWithinMax(r, t, max);
    }
    assert CutoffHandled(steps, times, p, t);
    var i :| 0 <= i < |steps| && times[i] == t && steps[i] == DoCutoff(p);
    assert a < i < b;
    assert steps[a..b][i - a] == DoCutoff(p);
  }

  /** The rest of a run is a run from where its first part ends. */
  lemma {:induction false} RunConcat(s: State, x: seq<Step>, y: seq<Step>, retries: nat) returns (m: State)
    requires Registered(s) && Run(s, x + y, retries)
    ensures Run(s, x, retries) && m == After(s, x, retries) && Registered(m)
    ensures Run(m, y, retries) && After(m, y, retries) == After(s, x + y, retries)
    decreases |y|
  {
    if y == [] {
      m := EmptyRest(s, x, y, retries);
    } else {
      var front, last := y[..|y| - 1], y[|y| - 1];
      SplitLast(x, y);
      RunFront(s, x + y, x + front, last, retries);
      m := RunConcat(s, x, front, retries);
      RunBack(m, y, front, last, After(s, x + front, retries), retries);
    }
  }

  lemma EmptyRest(s: State, x: seq<Step>, y: seq<Step>, retries: nat) returns (m: State)
    requires Registered(s) && Run(s, x + y, retries) && y == []
    ensures Run(s, x, retries) && m == After(s, x, retries) && Registered(m)
    ensures Run(m, y, retries) && After(m, y, retries) == After(s, x + y, retries)
  {
    assert x + y == x;
    m := After(s, x, retries);
  }

  lemma SplitLast(x: seq<Step>, y: seq<Step>)
    requires y != []
    ensures y == y[..|y| - 1] + [y[|y| - 1]]
    ensures x + y == (x + y[..|y| - 1]) + [y[|y| - 1]]
  {
  }

  lemma RunFront(s: State, steps: seq<Step>, front: seq<Step>, last: Step, retries: nat)
    requires Registered(s) && Run(s, steps, retries) && steps == front + [last]
    ensures Run(s, front, retries) && Enabled(After(s, front, retries), last)
    ensures After(s, steps, retries) == Do(After(s, front, retries), last, retries)
  {
    assert steps[..|steps| - 1] == front;
  }

  lemma RunBack(m: State, steps: seq<Step>, front: seq<Step>, last: Step, t: State, retries: nat)
    requires Registered(m) && steps == front + [last]
    requires Run(m, front, retries) && After(m, front, retries) == t && Enabled(t, last)
    ensures Registered(t) && Run(m, steps, retries) && After(m, steps, retries) == Do(t, last, retries)
  {
    RunSnoc(m, front, last, retries);
  }

  /** The part of a run between two of its states is a run from the first. */
  lemma RunPart(s: State, steps: seq<Step>, retries: nat, a: nat, b: nat)
    requires Registered(s) && a <= b <= |steps| && Run(s, steps, retries)
    ensures Run(s, steps[..a], retries)
    ensures Run(After(s, steps[..a], retries), steps[a..b], retries)
  {
    var x, y, z := steps[..a], steps[a..b], steps[b..];
    assert steps == x + (y + z);
    var m := RunConcat(s, x, y + z, retries);
    var _ := RunConcat(m, y, z, retries);
  }

  /** In every run in calendar order, whatever else happens in it, every poll cycle of a point publishes one
      or two messages for it: at most one dummy BAD and at most one genuine response. */
  lemma EveryCyclePublishes(s: State, steps: seq<Step>, times: seq<nat>, retries: nat, p: TxId, r: TimeRecord,
                            max: nat, a: nat, b: nat)
    requires Inv(s, retries) && BadsCarryLastGood(s.log) && Run(s, steps, retries) && p in s.points
    requires Fits(r, max) && 0 < r.cutoff < r.interval
    requires InCalendarOrder(steps, times, p, r, max) && Consecutive(steps, p, a, b)
    ensures Run(s, steps[..a], retries)
    ensures
      var now := After(s, steps[..a], retries);
      && Inv(now, retries) && BadsCarryLastGood(now.log) && Run(now, steps[a..b], retries)
      && var out := Added(now, steps[a..b], retries);
         Dummies(out, p) <= 1 && Genuine(out, p) <= 1 && 1 <= Dummies(out, p) + Genuine(out, p) <= 2
  {
    CycleHasCutoff(steps, times, p, r, max, a, b);
    RunPart(s, steps, retries, a, b);
    RunKeepsInv(s, steps[..a], retries);
    CyclePublishes(After(s, steps[..a], retries), steps[a..b], retries, p);
  }
}
