/**
 The life of a polled request: poll, stack reply, response processing with retries, cutoff.
 One transition per handler body; runs interleave the handlers of all points in any order.
 */
module PollProtocol {

  /** A point's roll id; it is also the transaction id of its requests. */
  type TxId = nat

  /** The last good value of a point and its time; both empty at the start. */
  datatype Cached = Cached(value: string, usec: string)

  const NO_VALUE := Cached("", "")

  /** What the stack reports for a request. */
  datatype Outcome = Data(value: string) | NoData | Timeout | Failure(code: nat)

  datatype Reply = Reply(tx: TxId, outcome: Outcome)

  datatype Cause = StillAwaiting | SendFailed | CutoffReached | FromDevice(outcome: Outcome)

  /** What leaves the application: calls into the stack and published messages. */
  datatype Event =
    | Call(tx: TxId)
    | Good(point: TxId, value: string, usec: string)
    | Bad(point: TxId, cause: Cause, cached: Cached)

  datatype Point = Point(
    await: bool,
    posted: bool,
    reqTx: TxId,
    retriesLeft: nat,
    retried: nat,
    lastGood: Cached
  )

  datatype State = State(
    points: map<TxId, Point>,
    tx: map<TxId, TxId>,
    flight: multiset<TxId>,
    queue: seq<Reply>,
    log: seq<Event>
  )

  // ----- the handlers -----

  /** A BAD response made up by the application; carries the last good value. */
  function PostDummy(s: State, p: TxId, cause: Cause): State
    requires p in s.points
  {
    s.(points := s.points[p := s.points[p].(posted := true)],
       log := s.log + [Bad(p, cause, s.points[p].lastGood)])
  }

  /** Registers the transaction (an existing entry is kept) and calls the stack. */
  function SendRequest(s: State, p: TxId, retries: nat, accepted: bool): State
    requires p in s.points
  {
    s.(points := s.points[p := s.points[p].(retriesLeft := retries)],
       tx := if p in s.tx then s.tx else s.tx[p := p],
       flight := if accepted then s.flight + multiset{p} else s.flight,
       log := s.log + [Call(p)])
  }

  function Poll(s: State, p: TxId, retries: nat, accepted: bool): State
    requires p in s.points
  {
    var pt := s.points[p];
    if pt.await then
      var s1 := PostDummy(s, p, StillAwaiting);
      if pt.reqTx in s.tx then s1
      else s1.(points := s1.points[p := s1.points[p].(await := false)])
    else
      var renewed := pt.(await := true, posted := false, reqTx := p, retried := 0);
      var s1 := SendRequest(s.(points := s.points[p := renewed]), p, retries, accepted);
      if accepted then s1
      else
        var s2 := PostDummy(s1.(points := s1.points[p := s1.points[p].(await := false)]), p, SendFailed);
        s2.(points := s2.points[p := s2.points[p].(reqTx := 0)], tx := s2.tx - {p})
  }

  function StackReply(s: State, r: Reply): State {
    s.(flight := s.flight - multiset{r.tx}, queue := s.queue + [r])
  }

  /** Resends a timed-out request while retries are left; says whether the reply is to be published. */
  function CheckForRetry(s: State, r: Reply, accepted: bool): (State, bool)
    requires forall t :: t in s.tx ==> s.tx[t] in s.points
  {
    if r.outcome != Timeout then (s, true)
    else if r.tx !in s.tx then (s, false)
    else
      var p := s.tx[r.tx];
      var pt := s.points[p];
      if pt.retriesLeft == 0 then (s, true)
      else
        (s.(points := s.points[p := pt.(retried := pt.retried + 1, retriesLeft := pt.retriesLeft - 1)],
            flight := if accepted then s.flight + multiset{p} else s.flight,
            log := s.log + [Call(p)]), false)
  }

  /** Publishes a reply whose transaction is still registered, and closes the transaction. */
  function PostResponse(s: State, r: Reply, usec: string): State
    requires forall t :: t in s.tx ==> s.tx[t] in s.points
  {
    if r.tx !in s.tx then s
    else
      var p := s.tx[r.tx];
      var closed := s.points[p].(await := false, reqTx := 0, posted := true);
      if r.outcome.Data? then
        s.(points := s.points[p := closed.(lastGood := Cached(r.outcome.value, usec))],
           tx := s.tx - {r.tx},
           log := s.log + [Good(p, r.outcome.value, usec)])
      else
        s.(points := s.points[p := closed],
           tx := s.tx - {r.tx},
           log := s.log + [Bad(p, FromDevice(r.outcome), closed.lastGood)])
  }

  function ProcessResponse(s: State, accepted: bool, usec: string): State
    requires s.queue != [] && forall t :: t in s.tx ==> s.tx[t] in s.points
  {
    var (s1, deliver) := CheckForRetry(s.(queue := s.queue[1..]), s.queue[0], accepted);
    if deliver then PostResponse(s1, s.queue[0], usec) else s1
  }

  function Cutoff(s: State, p: TxId): State
    requires p in s.points
  {
    if s.points[p].posted then s else PostDummy(s, p, CutoffReached)
  }

  // ----- runs -----

  datatype Step =
    | DoPoll(point: TxId, accepted: bool)
    | DoReply(reply: Reply)
    | DoProcess(accepted: bool, usec: string)
    | DoCutoff(point: TxId)

  /** The stack answers accepted calls, at most once each; a value it delivers is not empty. */
  predicate Enabled(s: State, step: Step) {
    match step
    case DoPoll(p, _) => p in s.points
    case DoReply(r) => r.tx in s.flight && (r.outcome.Data? ==> r.outcome.value != "")
    case DoProcess(_, _) => s.queue != []
    case DoCutoff(p) => p in s.points
  }

  function Do(s: State, step: Step, retries: nat): State
    requires Registered(s) && Enabled(s, step)
  {
    match step
    case DoPoll(p, accepted) => Poll(s, p, retries, accepted)
    case DoReply(r) => StackReply(s, r)
    case DoProcess(accepted, usec) => ProcessResponse(s, accepted, usec)
    case DoCutoff(p) => Cutoff(s, p)
  }

  /** Every transaction belongs to the point whose id it carries. */
  predicate Registered(s: State) {
    forall t :: t in s.tx ==> s.tx[t] == t && t in s.points
  }

  lemma StaysRegistered(s: State, step: Step, retries: nat)
    requires Registered(s) && Enabled(s, step)
    ensures Registered(Do(s, step, retries)) && Do(s, step, retries).points.Keys == s.points.Keys
  {
    match step
    case DoPoll(p, accepted) => PollStaysRegistered(s, p, retries, accepted);
    case DoReply(_) =>
    case DoProcess(accepted, usec) => ProcessStaysRegistered(s, accepted, usec);
    case DoCutoff(_) =>
  }

  lemma PollStaysRegistered(s: State, p: TxId, retries: nat, accepted: bool)
    requires Registered(s) && p in s.points
    ensures Registered(Poll(s, p, retries, accepted)) && Poll(s, p, retries, accepted).points.Keys == s.points.Keys
  {
  }

  lemma ProcessStaysRegistered(s: State, accepted: bool, usec: string)
    requires Registered(s) && s.queue != []
    ensures Registered(ProcessResponse(s, accepted, usec))
    ensures ProcessResponse(s, accepted, usec).points.Keys == s.points.Keys
  {
  }

  /** `steps` can be taken one after another from `s`. */
  ghost predicate Run(s: State, steps: seq<Step>, retries: nat)
    requires Registered(s)
    decreases |steps|, 0
  {
    steps == [] ||
    (var front := steps[..|steps| - 1];
     Run(s, front, retries) && Enabled(After(s, front, retries), steps[|steps| - 1]))
  }

  ghost function After(s: State, steps: seq<Step>, retries: nat): (r: State)
    requires Registered(s) && Run(s, steps, retries)
    ensures Registered(r) && r.points.Keys == s.points.Keys
    decreases |steps|, 1
  {
    if steps == [] then s
    else
      var before := After(s, steps[..|steps| - 1], retries);
      StaysRegistered(before, steps[|steps| - 1], retries);
      Do(before, steps[|steps| - 1], retries)
  }

  lemma {:induction false} RunSnoc(s: State, front: seq<Step>, last: Step, retries: nat)
    requires Registered(s) && Run(s, front, retries) && Enabled(After(s, front, retries), last)
    ensures Run(s, front + [last], retries)
    ensures After(s, front + [last], retries) == Do(After(s, front, retries), last, retries)
  {
    assert (front + [last])[..|front|] == front;
  }

  function Start(ps: set<TxId>): State {
    State(map p | p in ps :: Point(false, false, 0, 0, 0, NO_VALUE), map[], multiset{}, [], [])
  }

  // ----- what every step keeps -----

  function Queued(queue: seq<Reply>, p: TxId): nat {
    if queue == [] then 0 else (if queue[0].tx == p then 1 else 0) + Queued(queue[1..], p)
  }

  /** Requests of `p` that are still travelling: in the stack, or answered and not yet processed. */
  function Outstanding(s: State, p: TxId): nat {
    s.flight[p] + Queued(s.queue, p)
  }

  function LastGood(log: seq<Event>, p: TxId): Cached {
    if log == [] then NO_VALUE
    else
      var e := log[|log| - 1];
      if e.Good? && e.point == p then Cached(e.value, e.usec) else LastGood(log[..|log| - 1], p)
  }

  /** Between steps: a point awaits a response exactly while its transaction is registered; nothing
      travels without a registered transaction and at most one request per point does; retries are
      conserved while the request is live; the cache holds the last good publication. */
  ghost predicate Sound(s: State, p: TxId, retries: nat) {
    && Outstanding(s, p) <= (if p in s.tx then 1 else 0)
    && (p in s.points ==>
          && (s.points[p].await <==> p in s.tx)
          && s.points[p].lastGood == LastGood(s.log, p))
    && (p in s.tx ==>
          && p in s.points
          && s.points[p].reqTx == p
          && s.points[p].retriesLeft + s.points[p].retried == retries)
  }

  ghost predicate Inv(s: State, retries: nat) {
    Registered(s) && forall p :: Sound(s, p, retries)
  }

  /** Every BAD message carries the value and time of the point's most recent Good message. */
  ghost predicate BadsCarryLastGood(log: seq<Event>) {
    forall i :: 0 <= i < |log| && log[i].Bad? ==> log[i].cached == LastGood(log[..i], log[i].point)
  }

  lemma {:induction false} QueuedAppend(queue: seq<Reply>, r: Reply, p: TxId)
    ensures Queued(queue + [r], p) == Queued(queue, p) + if r.tx == p then 1 else 0
  {
    if queue == [] {
    } else {
      assert (queue + [r])[1..] == queue[1..] + [r];
      QueuedAppend(queue[1..], r, p);
    }
  }

  lemma LastGoodAppend(log: seq<Event>, e: Event, p: TxId)
    ensures LastGood(log + [e], p) ==
            if e.Good? && e.point == p then Cached(e.value, e.usec) else LastGood(log, p)
  {
    assert (log + [e])[..|log|] == log;
  }

  lemma InvInitially(ps: set<TxId>, retries: nat)
    ensures Inv(Start(ps), retries) && BadsCarryLastGood(Start(ps).log)
  {
  }

  lemma PollKeepsInv(s: State, p: TxId, retries: nat, accepted: bool)
    requires Inv(s, retries) && p in s.points
    ensures Inv(Poll(s, p, retries, accepted), retries)
  {
    var s' := Poll(s, p, retries, accepted);
    assert Sound(s, p, retries);
    forall q
      ensures Sound(s', q, retries)
    {
      assert Sound(s, q, retries);
      LastGoodOverPoll(s, p, retries, accepted, q);
    }
  }

  /** A poll appends calls and dummies only. */
  lemma LastGoodOverPoll(s: State, p: TxId, retries: nat, accepted: bool, q: TxId)
    requires p in s.points
    ensures LastGood(Poll(s, p, retries, accepted).log, q) == LastGood(s.log, q)
  {
    var bad := Bad(p, if s.points[p].await then StillAwaiting else SendFailed, s.points[p].lastGood);
    LastGoodAppend(s.log, Call(p), q);
    LastGoodAppend(s.log, bad, q);
    LastGoodAppend(s.log + [Call(p)], bad, q);
  }

  lemma ReplyKeepsInv(s: State, r: Reply, retries: nat)
    requires Inv(s, retries) && r.tx in s.flight
    ensures Inv(StackReply(s, r), retries)
  {
    forall q
      ensures Sound(StackReply(s, r), q, retries)
    {
      assert Sound(s, q, retries);
      QueuedAppend(s.queue, r, q);
    }
  }

  /** The transaction of a queued reply is registered. */
  lemma QueuedIsRegistered(s: State, retries: nat)
    requires Inv(s, retries) && s.queue != []
    ensures s.queue[0].tx in s.tx && s.queue[0].tx in s.points && Outstanding(s, s.queue[0].tx) == 1
  {
    assert Sound(s, s.queue[0].tx, retries);
  }

  lemma RetryKeepsSound(s: State, accepted: bool, retries: nat, q: TxId)
    requires Registered(s) && s.queue != [] && s.queue[0].tx in s.tx && s.queue[0].outcome == Timeout
    requires Sound(s, s.queue[0].tx, retries) && Sound(s, q, retries)
    requires s.points[s.queue[0].tx].retriesLeft > 0
    ensures Sound(CheckForRetry(s.(queue := s.queue[1..]), s.queue[0], accepted).0, q, retries)
  {
    LastGoodAppend(s.log, Call(s.queue[0].tx), q);
  }

  lemma PostKeepsSound(s: State, usec: string, retries: nat, q: TxId)
    requires Registered(s) && s.queue != [] && s.queue[0].tx in s.tx
    requires Sound(s, s.queue[0].tx, retries) && Sound(s, q, retries)
    ensures Sound(PostResponse(s.(queue := s.queue[1..]), s.queue[0], usec), q, retries)
  {
    var s' := PostResponse(s.(queue := s.queue[1..]), s.queue[0], usec);
    LastGoodAppend(s.log, s'.log[|s.log|], q);
  }

  lemma ProcessKeepsSound(s: State, accepted: bool, usec: string, retries: nat, q: TxId)
    requires Registered(s) && s.queue != [] && s.queue[0].tx in s.tx
    requires Sound(s, s.queue[0].tx, retries) && Sound(s, q, retries)
    ensures Sound(ProcessResponse(s, accepted, usec), q, retries)
  {
    if s.queue[0].outcome == Timeout && s.points[s.queue[0].tx].retriesLeft > 0 {
      RetryKeepsSound(s, accepted, retries, q);
    } else {
      PostKeepsSound(s, usec, retries, q);
    }
  }

  lemma ProcessKeepsInv(s: State, accepted: bool, usec: string, retries: nat)
    requires Inv(s, retries) && s.queue != []
    ensures Inv(ProcessResponse(s, accepted, usec), retries)
  {
    QueuedIsRegistered(s, retries);
    ProcessStaysRegistered(s, accepted, usec);
    assert Sound(s, s.queue[0].tx, retries);
    forall q
      ensures Sound(ProcessResponse(s, accepted, usec), q, retries)
    {
      assert Sound(s, q, retries);
      ProcessKeepsSound(s, accepted, usec, retries, q);
    }
  }

  lemma CutoffKeepsInv(s: State, p: TxId, retries: nat)
    requires Inv(s, retries) && p in s.points
    ensures Inv(Cutoff(s, p), retries)
  {
    forall q
      ensures Sound(Cutoff(s, p), q, retries)
    {
      assert Sound(s, q, retries);
      LastGoodAppend(s.log, Bad(p, CutoffReached, s.points[p].lastGood), q);
    }
  }

  lemma StepKeepsInv(s: State, step: Step, retries: nat)
    requires Inv(s, retries) && Enabled(s, step)
    ensures Inv(Do(s, step, retries), retries)
  {
    match step
    case DoPoll(p, accepted) => PollKeepsInv(s, p, retries, accepted);
    case DoReply(r) => ReplyKeepsInv(s, r, retries);
    case DoProcess(accepted, usec) => ProcessKeepsInv(s, accepted, usec, retries);
    case DoCutoff(p) => CutoffKeepsInv(s, p, retries);
  }

  // ----- what a step publishes -----

  /** The events of one step. */
  ghost function Emitted(s: State, step: Step, retries: nat): seq<Event>
    requires Inv(s, retries) && Enabled(s, step)
  {
    match step
    case DoPoll(p, accepted) =>
      if s.points[p].await then [Bad(p, StillAwaiting, s.points[p].lastGood)]
      else if accepted then [Call(p)]
      else [Call(p), Bad(p, SendFailed, s.points[p].lastGood)]
    case DoReply(_) => []
    case DoProcess(_, usec) =>
      var r := s.queue[0];
      var p := r.tx;
      if p !in s.points then []
      else if r.outcome.Timeout? && s.points[p].retriesLeft > 0 then [Call(p)]
      else if r.outcome.Data? then [Good(p, r.outcome.value, usec)]
      else [Bad(p, FromDevice(r.outcome), s.points[p].lastGood)]
    case DoCutoff(p) =>
      if s.points[p].posted then [] else [Bad(p, CutoffReached, s.points[p].lastGood)]
  }

  lemma StepEmits(s: State, step: Step, retries: nat)
    requires Inv(s, retries) && Enabled(s, step)
    ensures Do(s, step, retries).log == s.log + Emitted(s, step, retries)
  {
    if step.DoProcess? {
      QueuedIsRegistered(s, retries);
    } else if step.DoPoll? {
      assert Sound(s, step.point, retries);
    }
  }

  lemma BadsCarryAppend(log: seq<Event>, e: Event)
    requires BadsCarryLastGood(log)
    requires e.Bad? ==> e.cached == LastGood(log, e.point)
    ensures BadsCarryLastGood(log + [e])
  {
    var all := log + [e];
    forall i | 0 <= i < |all| && all[i].Bad?
      ensures all[i].cached == LastGood(all[..i], all[i].point)
    {
      assert all[..i] == log[..i];
    }
  }

  lemma StepCarriesLastGood(s: State, step: Step, retries: nat)
    requires Inv(s, retries) && Enabled(s, step) && BadsCarryLastGood(s.log)
    ensures BadsCarryLastGood(Do(s, step, retries).log)
  {
    var out := Emitted(s, step, retries);
    StepEmits(s, step, retries);
    if out != [] {
      var p := if out[0].Call? then out[0].tx else out[0].point;
      assert Sound(s, p, retries);
      if step.DoProcess? {
        QueuedIsRegistered(s, retries);
      }
      BadsCarryAppend(s.log, out[0]);
      if |out| == 2 {
        LastGoodAppend(s.log, out[0], p);
        BadsCarryAppend(s.log + [out[0]], out[1]);
        assert s.log + out == s.log + [out[0]] + [out[1]];
      } else {
        assert s.log + out == s.log + [out[0]];
      }
    } else {
      assert s.log + out == s.log;
    }
  }

  /** In every run every point is in order between steps, and every BAD message carries the most
      recent good value, or none. */
  lemma {:induction false} RunKeepsInv(s: State, steps: seq<Step>, retries: nat)
    requires Inv(s, retries) && BadsCarryLastGood(s.log) && Run(s, steps, retries)
    ensures Inv(After(s, steps, retries), retries) && BadsCarryLastGood(After(s, steps, retries).log)
  {
    if steps == [] {
    } else {
      var front, last := steps[..|steps| - 1], steps[|steps| - 1];
      RunKeepsInv(s, front, retries);
      StepKeepsInv(After(s, front, retries), last, retries);
      StepCarriesLastGood(After(s, front, retries), last, retries);
    }
  }

  // ----- counting over a cycle -----

  function Calls(log: seq<Event>, p: TxId): nat {
    if log == [] then 0 else (if log[0].Call? && log[0].tx == p then 1 else 0) + Calls(log[1..], p)
  }

  predicate IsDummy(e: Event) {
    e.Bad? && !e.cause.FromDevice?
  }

  function Dummies(log: seq<Event>, p: TxId): nat {
    if log == [] then 0 else (if IsDummy(log[0]) && log[0].point == p then 1 else 0) + Dummies(log[1..], p)
  }

  function Genuine(log: seq<Event>, p: TxId): nat {
    if log == [] then 0
    else (if !log[0].Call? && !IsDummy(log[0]) && log[0].point == p then 1 else 0) + Genuine(log[1..], p)
  }

  lemma {:induction false} CountsAdd(a: seq<Event>, b: seq<Event>, p: TxId)
    ensures Calls(a + b, p) == Calls(a, p) + Calls(b, p)
    ensures Dummies(a + b, p) == Dummies(a, p) + Dummies(b, p)
    ensures Genuine(a + b, p) == Genuine(a, p) + Genuine(b, p)
  {
    if a == [] {
      assert a + b == b;
    } else {
      assert (a + b)[1..] == a[1..] + b;
      CountsAdd(a[1..], b, p);
    }
  }

  /** The events a run adds to the log. */
  ghost function Added(s: State, steps: seq<Step>, retries: nat): (out: seq<Event>)
    requires Inv(s, retries) && BadsCarryLastGood(s.log) && Run(s, steps, retries)
    ensures After(s, steps, retries).log == s.log + out
  {
    if steps == [] then []
    else
      var front, last := steps[..|steps| - 1], steps[|steps| - 1];
      var before := After(s, front, retries);
      RunKeepsInv(s, front, retries);
      StepEmits(before, last, retries);
      Added(s, front, retries) + Emitted(before, last, retries)
  }

  lemma CountsOfPair(a: Event, b: Event, p: TxId)
    ensures Calls([a, b], p) == Calls([a], p) + Calls([b], p)
    ensures Dummies([a, b], p) == Dummies([a], p) + Dummies([b], p)
    ensures Genuine([a, b], p) == Genuine([a], p) + Genuine([b], p)
  {
    assert [a, b] == [a] + [b];
    CountsAdd([a], [b], p);
  }

  /** The step starts a new request of `p`. */
  predicate Renews(s: State, step: Step, p: TxId) {
    step.DoPoll? && step.point == p && p in s.points && !s.points[p].await
  }

  /** What one step does for one point, in counts. */
  ghost predicate Counted(s: State, step: Step, retries: nat, p: TxId)
    requires Inv(s, retries) && Enabled(s, step) && p in s.points
  {
    var out := Emitted(s, step, retries);
    var s' := Do(s, step, retries);
    var polled := step.DoPoll? && step.point == p;
    var d, g, c := Dummies(out, p), Genuine(out, p), Calls(out, p);
    && p in s'.points
    && d + g <= 1 && c <= 1
    && (g == 1 ==> p in s.tx && p !in s'.tx && !polled)
    && (if polled then s'.points[p].posted <==> d == 1
        else (d == 1 ==> !s.points[p].posted) && (s'.points[p].posted <==> s.points[p].posted || d + g == 1)
             && (p !in s.tx ==> p !in s'.tx))
    && (step == DoCutoff(p) ==> s.points[p].posted || d == 1)
    && (if Renews(s, step, p) then c == 1 && s'.points[p].retried == 0 && s'.points[p].retriesLeft == retries
        else s'.points[p].retried == s.points[p].retried + c
             && s'.points[p].retriesLeft + s'.points[p].retried == s.points[p].retriesLeft + s.points[p].retried)
  }

  lemma PollCounts(s: State, q: TxId, accepted: bool, retries: nat, p: TxId)
    requires Inv(s, retries) && q in s.points && p in s.points
    ensures Counted(s, DoPoll(q, accepted), retries, p)
  {
    var bad := Bad(q, if s.points[q].await then StillAwaiting else SendFailed, s.points[q].lastGood);
    assert Sound(s, q, retries) && Sound(s, p, retries);
    CountsOfPair(Call(q), bad, p);
  }

  lemma ProcessCounts(s: State, accepted: bool, usec: string, retries: nat, p: TxId)
    requires Inv(s, retries) && s.queue != [] && p in s.points
    ensures Counted(s, DoProcess(accepted, usec), retries, p)
  {
    QueuedIsRegistered(s, retries);
    assert Sound(s, s.queue[0].tx, retries) && Sound(s, p, retries);
  }

  lemma StepCounts(s: State, step: Step, retries: nat, p: TxId)
    requires Inv(s, retries) && Enabled(s, step) && p in s.points
    ensures Counted(s, step, retries, p)
  {
    match step
    case DoPoll(q, accepted) => PollCounts(s, q, accepted, retries, p);
    case DoReply(_) =>
    case DoProcess(accepted, usec) => ProcessCounts(s, accepted, usec, retries, p);
    case DoCutoff(_) =>
  }

  /** A cycle of `p`: its poll, then anything but another poll of `p`. */
  ghost predicate IsCycle(steps: seq<Step>, p: TxId) {
    && steps != []
    && steps[0].DoPoll? && steps[0].point == p
    && forall i :: 0 < i < |steps| && steps[i].DoPoll? ==> steps[i].point != p
  }

  /** What a cycle has published for `p`, against the point's flag. */
  ghost predicate CycleSoFar(out: seq<Event>, s: State, p: TxId) {
    && p in s.points
    && Dummies(out, p) <= 1 && Genuine(out, p) <= 1
    && (s.points[p].posted <==> Dummies(out, p) + Genuine(out, p) >= 1)
    && (Genuine(out, p) == 1 ==> p !in s.tx)
  }

  lemma CycleStep(out: seq<Event>, s: State, step: Step, retries: nat, p: TxId)
    requires Inv(s, retries) && Enabled(s, step) && p in s.points
    requires if step.DoPoll? && step.point == p then out == [] else CycleSoFar(out, s, p)
    ensures
      var more := out + Emitted(s, step, retries);
      && CycleSoFar(more, Do(s, step, retries), p)
      && Dummies(more, p) + Genuine(more, p) >= Dummies(out, p) + Genuine(out, p)
      && (step == DoCutoff(p) ==> Dummies(more, p) + Genuine(more, p) >= 1)
  {
    StepCounts(s, step, retries, p);
    CountsAdd(out, Emitted(s, step, retries), p);
  }

  lemma {:induction false} CycleKeepsCounts(s: State, steps: seq<Step>, retries: nat, p: TxId)
    requires Inv(s, retries) && BadsCarryLastGood(s.log) && Run(s, steps, retries)
    requires IsCycle(steps, p) && p in s.points
    ensures CycleSoFar(Added(s, steps, retries), After(s, steps, retries), p)
  {
    var front, last := steps[..|steps| - 1], steps[|steps| - 1];
    RunKeepsInv(s, front, retries);
    if front == [] {
    } else {
      CycleKeepsCounts(s, front, retries, p);
    }
    CycleStep(Added(s, front, retries), After(s, front, retries), last, retries, p);
  }

  lemma {:induction false} CycleAfterCutoff(s: State, steps: seq<Step>, retries: nat, p: TxId)
    requires Inv(s, retries) && BadsCarryLastGood(s.log) && Run(s, steps, retries)
    requires IsCycle(steps, p) && p in s.points && DoCutoff(p) in steps
    ensures Dummies(Added(s, steps, retries), p) + Genuine(Added(s, steps, retries), p) >= 1
  {
    var front, last := steps[..|steps| - 1], steps[|steps| - 1];
    assert steps == front + [last];
    RunKeepsInv(s, front, retries);
    CycleKeepsCounts(s, front, retries, p);
    CycleStep(Added(s, front, retries), After(s, front, retries), last, retries, p);
    if DoCutoff(p) !in front {
    } else {
      CycleAfterCutoff(s, front, retries, p);
    }
  }

  /** Every cycle publishes at most one dummy BAD and at most one genuine response, and at least one
      of them by the time of its cutoff, whatever happens in between. */
  lemma CyclePublishes(s: State, steps: seq<Step>, retries: nat, p: TxId)
    requires Inv(s, retries) && BadsCarryLastGood(s.log) && Run(s, steps, retries)
    requires IsCycle(steps, p) && p in s.points
    ensures
      var out := Added(s, steps, retries);
      && Dummies(out, p) <= 1 && Genuine(out, p) <= 1
      && (DoCutoff(p) in steps ==> Dummies(out, p) + Genuine(out, p) >= 1)
  {
    CycleKeepsCounts(s, steps, retries, p);
    if DoCutoff(p) in steps {
      CycleAfterCutoff(s, steps, retries, p);
    }
  }

  /** `steps` is one request of `p`: it starts one and no later step starts another. */
  ghost predicate IsRequest(s: State, steps: seq<Step>, retries: nat, p: TxId)
    requires Registered(s) && Run(s, steps, retries)
    decreases |steps|
  {
    steps != [] &&
    var front, last := steps[..|steps| - 1], steps[|steps| - 1];
    if front == [] then Renews(s, last, p)
    else IsRequest(s, front, retries, p) && !Renews(After(s, front, retries), last, p)
  }

  /** Retries are conserved, and the stack is called once for the poll and once for every retry. */
  lemma {:induction false} RequestAccounting(s: State, steps: seq<Step>, retries: nat, p: TxId)
    requires Inv(s, retries) && BadsCarryLastGood(s.log) && Run(s, steps, retries)
    requires IsRequest(s, steps, retries, p)
    ensures p in s.points
    ensures
      var pt := After(s, steps, retries).points[p];
      && pt.retriesLeft + pt.retried == retries
      && Calls(Added(s, steps, retries), p) == 1 + pt.retried <= 1 + retries
    decreases |steps|
  {
    var front, last := steps[..|steps| - 1], steps[|steps| - 1];
    var before := After(s, front, retries);
    RunKeepsInv(s, front, retries);
    if front == [] {
    } else {
      RequestAccounting(s, front, retries, p);
    }
    StepCounts(before, last, retries, p);
    CountsAdd(Added(s, front, retries), Emitted(before, last, retries), p);
  }

  // ----- which message answers which reply -----

  /** The message publishes the reply. */
  predicate Answers(e: Event, r: Reply) {
    match r.outcome
    case Data(value) => e.Good? && e.point == r.tx && e.value == value
    case _ => e.Bad? && e.point == r.tx && e.cause == FromDevice(r.outcome)
  }

  /** Everything but calls and made-up messages, in order. */
  function GenuineEvents(log: seq<Event>): seq<Event> {
    if log == [] then []
    else
      var before, e := GenuineEvents(log[..|log| - 1]), log[|log| - 1];
      if e.Call? || IsDummy(e) then before else before + [e]
  }

  lemma {:induction false} GenuineEventsConcat(a: seq<Event>, b: seq<Event>)
    ensures GenuineEvents(a + b) == GenuineEvents(a) + GenuineEvents(b)
  {
    if b == [] {
      assert a + b == a;
    } else {
      assert (a + b)[..|a + b| - 1] == a + b[..|b| - 1];
      GenuineEventsConcat(a, b[..|b| - 1]);
    }
  }

  /** The replies that the stack has delivered, in order. */
  function Delivered(steps: seq<Step>): seq<Reply> {
    if steps == [] then []
    else
      var before, last := Delivered(steps[..|steps| - 1]), steps[|steps| - 1];
      if last.DoReply? then before + [last.reply] else before
  }

  /** The replies that were taken from the queue, in order. */
  ghost function Taken(s: State, steps: seq<Step>, retries: nat): seq<Reply>
    requires Registered(s) && Run(s, steps, retries)
    decreases |steps|
  {
    if steps == [] then []
    else
      var front, last := steps[..|steps| - 1], steps[|steps| - 1];
      var now := After(s, front, retries);
      Taken(s, front, retries) + if last.DoProcess? then [now.queue[0]] else []
  }

  /** Of these, the ones that closed their transaction. */
  ghost function Closing(s: State, steps: seq<Step>, retries: nat): seq<Reply>
    requires Registered(s) && Run(s, steps, retries)
    decreases |steps|
  {
    if steps == [] then []
    else
      var front, last := steps[..|steps| - 1], steps[|steps| - 1];
      var now := After(s, front, retries);
      StaysRegistered(now, last, retries);
      Closing(s, front, retries)
      + if last.DoProcess? && now.queue[0].tx !in Do(now, last, retries).tx then [now.queue[0]] else []
  }

  lemma StepQueue(s: State, step: Step, retries: nat)
    requires Registered(s) && Enabled(s, step)
    ensures Do(s, step, retries).queue ==
            if step.DoReply? then s.queue + [step.reply] else if step.DoProcess? then s.queue[1..] else s.queue
  {
  }

  lemma QueueBalance<T>(first: seq<T>, delivered: seq<T>, taken: seq<T>, queue: seq<T>)
    requires first + delivered == taken + queue
    ensures forall r :: first + (delivered + [r]) == taken + (queue + [r])
    ensures queue != [] ==> first + delivered == (taken + [queue[0]]) + queue[1..]
  {
    forall r
      ensures first + (delivered + [r]) == taken + (queue + [r])
    {
      assert first + (delivered + [r]) == (first + delivered) + [r];
    }
  }

  /** Replies are processed in the order of their arrival, none lost and none twice. */
  lemma {:induction false} FirstInFirstOut(s: State, steps: seq<Step>, retries: nat)
    requires Registered(s) && Run(s, steps, retries)
    ensures s.queue + Delivered(steps) == Taken(s, steps, retries) + After(s, steps, retries).queue
    decreases |steps|
  {
    if steps == [] {
      assert s.queue + [] == [] + s.queue;
    } else {
      var front, last := steps[..|steps| - 1], steps[|steps| - 1];
      var now := After(s, front, retries);
      FirstInFirstOut(s, front, retries);
      StepQueue(now, last, retries);
      QueueBalance(s.queue, Delivered(front), Taken(s, front, retries), now.queue);
      assert Taken(s, front, retries) + [] == Taken(s, front, retries);
    }
  }

  /** A processed reply either closes its transaction and is published, or is a timeout that is sent again. */
  lemma ReplyAnswered(s: State, accepted: bool, usec: string, retries: nat)
    requires Inv(s, retries) && s.queue != []
    ensures
      var r, s' := s.queue[0], Do(s, DoProcess(accepted, usec), retries);
      if r.tx !in s'.tx then
        && |s'.log| == |s.log| + 1
        && s'.log == s.log + [s'.log[|s'.log| - 1]] && Answers(s'.log[|s'.log| - 1], r)
        && (s'.log[|s'.log| - 1].Good? ==> s'.log[|s'.log| - 1].usec == usec)
      else
        && r.outcome == Timeout && s.points[r.tx].retriesLeft > 0 && s'.log == s.log + [Call(r.tx)]
        && s'.flight == s.flight + if accepted then multiset{r.tx} else multiset{}
  {
    QueuedIsRegistered(s, retries);
    assert Sound(s, s.queue[0].tx, retries);
  }

  /** The genuine messages of a run answer exactly the replies that close a transaction, in their order. */
  lemma {:induction false} GenuineAnswers(s: State, steps: seq<Step>, retries: nat)
    requires Inv(s, retries) && BadsCarryLastGood(s.log) && Run(s, steps, retries)
    ensures
      var events, replies := GenuineEvents(Added(s, steps, retries)), Closing(s, steps, retries);
      |events| == |replies| && forall i :: 0 <= i < |events| ==> Answers(events[i], replies[i])
    decreases |steps|
  {
    if steps == [] {
    } else {
      var front, last := steps[..|steps| - 1], steps[|steps| - 1];
      var now := After(s, front, retries);
      RunKeepsInv(s, front, retries);
      GenuineAnswers(s, front, retries);
      GenuineEventsConcat(Added(s, front, retries), Emitted(now, last, retries));
      StepAnswers(now, last, retries);
    }
  }

  lemma GenuineOfFew(a: Event, b: Event)
    ensures GenuineEvents([a]) == if a.Call? || IsDummy(a) then [] else [a]
    ensures GenuineEvents([a, b]) == GenuineEvents([a]) + GenuineEvents([b])
  {
    assert [a][..0] == [];
    GenuineEventsConcat([a], [b]);
    assert [a] + [b] == [a, b];
  }

  lemma ProcessAnswers(s: State, accepted: bool, usec: string, retries: nat)
    requires Inv(s, retries) && s.queue != []
    ensures
      var step := DoProcess(accepted, usec);
      var out := GenuineEvents(Emitted(s, step, retries));
      if s.queue[0].tx !in Do(s, step, retries).tx then |out| == 1 && Answers(out[0], s.queue[0]) else out == []
  {
    QueuedIsRegistered(s, retries);
    var out := Emitted(s, DoProcess(accepted, usec), retries);
    assert |out| == 1 && out == [out[0]];
    GenuineOfFew(out[0], out[0]);
    ClosedOrRetried(s, accepted, usec, retries);
  }

  lemma ClosedOrRetried(s: State, accepted: bool, usec: string, retries: nat)
    requires Inv(s, retries) && s.queue != []
    ensures
      var r, step := s.queue[0], DoProcess(accepted, usec);
      var out := Emitted(s, step, retries);
      if r.tx !in Do(s, step, retries).tx then |out| == 1 && Answers(out[0], r) else out == [Call(r.tx)]
  {
    QueuedIsRegistered(s, retries);
  }

  lemma StepAnswers(s: State, step: Step, retries: nat)
    requires Inv(s, retries) && Enabled(s, step)
    ensures
      var out := GenuineEvents(Emitted(s, step, retries));
      if step.DoProcess? && s.queue[0].tx !in Do(s, step, retries).tx then |out| == 1 && Answers(out[0], s.queue[0])
      else out == []
  {
    match step
    case DoPoll(p, accepted) =>
      var bad := Bad(p, if s.points[p].await then StillAwaiting else SendFailed, s.points[p].lastGood);
      GenuineOfFew(Call(p), bad);
      GenuineOfFew(bad, bad);
    case DoReply(_) =>
    case DoProcess(accepted, usec) => ProcessAnswers(s, accepted, usec, retries);
    case DoCutoff(p) => GenuineOfFew(Bad(p, CutoffReached, s.points[p].lastGood), Call(p));
  }

  // ----- what the other handlers do -----

  /** A poll of an idle point calls the stack; a refusal is reported and leaves the point idle, acceptance puts
      the request in flight. A poll of a waiting point only publishes a dummy. */
  lemma PollSays(s: State, p: TxId, accepted: bool, retries: nat)
    requires Inv(s, retries) && p in s.points
    ensures
      var s', last := Do(s, DoPoll(p, accepted), retries), s.points[p].lastGood;
      && s'.queue == s.queue && s'.points[p].posted == (s.points[p].await || !accepted)
      && (if s.points[p].await then
            s'.log == s.log + [Bad(p, StillAwaiting, last)] && s'.flight == s.flight && s'.points[p].await
          else if accepted then
            s'.log == s.log + [Call(p)] && s'.flight == s.flight + multiset{p} && s'.points[p].await
          else
            s'.log == s.log + [Call(p), Bad(p, SendFailed, last)] && s'.flight == s.flight && !s'.points[p].await)
  {
    assert Sound(s, p, retries);
  }

  /** Whatever the state, a point that waits for a transaction which is gone is set free by its next poll. */
  lemma LostTransactionFrees(s: State, p: TxId, retries: nat, accepted: bool)
    requires p in s.points && s.points[p].await
    ensures
      var s' := Poll(s, p, retries, accepted);
      (s'.points[p].await <==> s.points[p].reqTx in s.tx) && s'.tx == s.tx && s'.flight == s.flight
  {
  }

  /** And a reply without a transaction is dropped. */
  lemma StaleReplyDropped(s: State, accepted: bool, usec: string)
    requires Registered(s) && s.queue != [] && s.queue[0].tx !in s.tx
    ensures ProcessResponse(s, accepted, usec) == s.(queue := s.queue[1..])
  {
  }

  /** No handler touches another point than the one it is for. */
  lemma OtherPointsSame(s: State, step: Step, retries: nat, q: TxId)
    requires Inv(s, retries) && Enabled(s, step) && q in s.points
    requires match step
             case DoPoll(p, _) => p != q
             case DoReply(_) => true
             case DoProcess(_, _) => s.queue[0].tx != q
             case DoCutoff(p) => p != q
    ensures Do(s, step, retries).points[q] == s.points[q]
    ensures q in Do(s, step, retries).tx <==> q in s.tx
  {
    if step.DoProcess? {
      QueuedIsRegistered(s, retries);
    }
  }

  // ----- how a request ends -----

  /** Every reply to a request is a timeout and every resend is accepted: `n + 1` rounds. */
  function TimeoutRounds(p: TxId, n: nat): seq<Step> {
    var round := [DoReply(Reply(p, Timeout)), DoProcess(true, "")];
    if n == 0 then round else round + TimeoutRounds(p, n - 1)
  }

  /** Takes steps from the front. */
  ghost function Play(s: State, steps: seq<Step>, retries: nat): State
    requires Registered(s)
    decreases |steps|
  {
    if steps == [] || !Enabled(s, steps[0]) then s
    else
      StaysRegistered(s, steps[0], retries);
      Play(Do(s, steps[0], retries), steps[1..], retries)
  }

  function Repeat(e: Event, n: nat): seq<Event> {
    if n == 0 then [] else [e] + Repeat(e, n - 1)
  }

  lemma PlayTwo(s: State, a: Step, b: Step, rest: seq<Step>, retries: nat)
    requires Registered(s) && Enabled(s, a)
    requires Registered(Do(s, a, retries)) && Enabled(Do(s, a, retries), b)
    requires Registered(Do(Do(s, a, retries), b, retries))
    ensures Play(s, [a, b] + rest, retries) == Play(Do(Do(s, a, retries), b, retries), rest, retries)
  {
    var steps := [a, b] + rest;
    assert steps[0] == a && steps[1..][0] == b && steps[1..][1..] == rest;
    assert Play(s, steps, retries) == Play(Do(s, a, retries), steps[1..], retries);
  }

  /** One round: a timeout either resends or, with no retry left, publishes. */
  lemma TimeoutRound(s: State, p: TxId, retries: nat) returns (s1: State, s2: State)
    requires Inv(s, retries) && p in s.flight && s.queue == [] && p in s.points
    ensures s1 == Do(s, DoReply(Reply(p, Timeout)), retries) && Inv(s1, retries) && s1.queue != []
    ensures s2 == Do(s1, DoProcess(true, ""), retries) && Inv(s2, retries)
    ensures s2.queue == [] && p in s2.points
    ensures
      if s.points[p].retriesLeft > 0 then
        && p in s2.flight && s2.log == s.log + [Call(p)]
        && s2.points[p].retriesLeft == s.points[p].retriesLeft - 1
      else
        && !s2.points[p].await && p !in s2.tx && s2.points[p].retriesLeft == 0
        && s2.points[p].retried == retries
        && s2.log == s.log + [Bad(p, FromDevice(Timeout), LastGood(s.log, p))]
  {
    assert Sound(s, p, retries);
    assert p in s.tx;
    s1 := Do(s, DoReply(Reply(p, Timeout)), retries);
    StepKeepsInv(s, DoReply(Reply(p, Timeout)), retries);
    s2 := Do(s1, DoProcess(true, ""), retries);
    StepKeepsInv(s1, DoProcess(true, ""), retries);
  }

  /** `end` closes the request that `s` has in flight: all its retries used, one BAD published. */
  ghost predicate EndedByTimeouts(s: State, end: State, p: TxId, retries: nat)
    requires p in s.points
  {
    && p in end.points && !end.points[p].await && p !in end.tx
    && end.points[p].retriesLeft == 0 && end.points[p].retried == retries
    && end.log == s.log + Repeat(Call(p), s.points[p].retriesLeft)
                  + [Bad(p, FromDevice(Timeout), LastGood(s.log, p))]
  }

  lemma EndedOneRoundEarlier(s: State, next: State, end: State, p: TxId, retries: nat)
    requires p in s.points && p in next.points && s.points[p].retriesLeft > 0
    requires next.log == s.log + [Call(p)] && next.points[p].retriesLeft == s.points[p].retriesLeft - 1
    requires EndedByTimeouts(next, end, p, retries)
    ensures EndedByTimeouts(s, end, p, retries)
  {
    LastGoodAppend(s.log, Call(p), p);
    var left := s.points[p].retriesLeft;
    assert next.log + Repeat(Call(p), left - 1) == s.log + Repeat(Call(p), left);
  }

  /** Such a request ends after exactly its remaining retries, with one published BAD. */
  lemma {:induction false} AllTimeouts(s: State, p: TxId, retries: nat)
    requires Inv(s, retries) && p in s.flight && s.queue == [] && p in s.points
    ensures EndedByTimeouts(s, Play(s, TimeoutRounds(p, s.points[p].retriesLeft), retries), p, retries)
    decreases s.points[p].retriesLeft
  {
    var left := s.points[p].retriesLeft;
    var reply, process := DoReply(Reply(p, Timeout)), DoProcess(true, "");
    var s1, s2 := TimeoutRound(s, p, retries);
    var rest := if left == 0 then [] else TimeoutRounds(p, left - 1);
    PlayTwo(s, reply, process, rest, retries);
    assert TimeoutRounds(p, left) == [reply, process] + rest;
    if left == 0 {
    } else {
      AllTimeouts(s2, p, retries);
      EndedOneRoundEarlier(s, s2, Play(s2, rest, retries), p, retries);
    }
  }

  /** Whatever else the queue holds, it holds only timeouts for `p`. */
  ghost predicate OnlyTimeouts(queue: seq<Reply>, p: TxId) {
    forall i :: 0 <= i < |queue| && queue[i].tx == p ==> queue[i].outcome == Timeout
  }

  /** `p` has a live request that can only be answered by a timeout. */
  ghost predicate TimingOut(s: State, p: TxId) {
    p in s.tx && Outstanding(s, p) == 1 && OnlyTimeouts(s.queue, p)
  }

  /** The step processes a reply to `p`. */
  predicate Processes(s: State, step: Step, p: TxId) {
    step.DoProcess? && s.queue != [] && s.queue[0].tx == p
  }

  /** What a step may do to a request of `p` that gets timeouts only; any step of other points may. */
  ghost predicate TimeoutStep(s: State, step: Step, p: TxId) {
    && (step.DoReply? && step.reply.tx == p ==> step.reply.outcome == Timeout)
    && (Processes(s, step, p) && p in s.points && s.points[p].retriesLeft > 0 ==> step.accepted)
    && !Renews(s, step, p)
  }

  /** A run in which every reply to `p` is a timeout, every resend of `p` is accepted and `p` gets no new
      request. */
  ghost predicate TimeoutRun(s: State, steps: seq<Step>, retries: nat, p: TxId)
    requires Registered(s) && Run(s, steps, retries)
    decreases |steps|
  {
    steps == [] ||
    var front, last := steps[..|steps| - 1], steps[|steps| - 1];
    TimeoutRun(s, front, retries, p) && TimeoutStep(After(s, front, retries), last, p)
  }

  /** How many replies to `p` a run processes. */
  ghost function Rounds(s: State, steps: seq<Step>, retries: nat, p: TxId): nat
    requires Registered(s) && Run(s, steps, retries)
    decreases |steps|
  {
    if steps == [] then 0
    else
      var front, last := steps[..|steps| - 1], steps[|steps| - 1];
      Rounds(s, front, retries, p) + if Processes(After(s, front, retries), last, p) then 1 else 0
  }

  /** The only genuine message of `p` is a timeout. */
  ghost predicate GenuinelyTimeouts(out: seq<Event>, p: TxId) {
    forall i :: 0 <= i < |out| && !out[i].Call? && !IsDummy(out[i]) && out[i].point == p ==>
      out[i].Bad? && out[i].cause == FromDevice(Timeout)
  }

  /** How far a request has come whose replies are timeouts: `left` retries at the start, `out` since. */
  ghost predicate TimeoutProgress(s: State, out: seq<Event>, rounds: nat, left: nat, retries: nat, p: TxId) {
    && p in s.points && GenuinelyTimeouts(out, p)
    && s.points[p].retriesLeft + Calls(out, p) == left
    && rounds == Calls(out, p) + Genuine(out, p)
    && (if p in s.tx then Genuine(out, p) == 0 && TimingOut(s, p)
        else Genuine(out, p) == 1 && s.points[p].retriesLeft == 0 && s.points[p].retried == retries)
  }

  /** One step of such a request, against what it publishes and sends. */
  ghost predicate TimeoutEffect(s: State, step: Step, retries: nat, p: TxId)
    requires Inv(s, retries) && Enabled(s, step) && p in s.points
  {
    var s', out := Do(s, step, retries), Emitted(s, step, retries);
    && p in s'.points && GenuinelyTimeouts(out, p)
    && s'.points[p].retriesLeft + Calls(out, p) == s.points[p].retriesLeft
    && Calls(out, p) + Genuine(out, p) == (if Processes(s, step, p) then 1 else 0)
    && (p in s'.tx ==> Genuine(out, p) == 0 && TimingOut(s', p))
    && (p in s.tx && p !in s'.tx ==>
          Genuine(out, p) == 1 && s'.points[p].retriesLeft == 0 && s'.points[p].retried == retries)
    && (p !in s.tx ==> p !in s'.tx && Genuine(out, p) == 0 && s'.points[p].retried == s.points[p].retried)
  }

  lemma ProcessTimeoutEffect(s: State, accepted: bool, usec: string, retries: nat, p: TxId)
    requires Inv(s, retries) && s.queue != [] && p in s.points && TimeoutStep(s, DoProcess(accepted, usec), p)
    requires p in s.tx ==> TimingOut(s, p)
    ensures TimeoutEffect(s, DoProcess(accepted, usec), retries, p)
  {
    assert Sound(s, p, retries);
    QueuedIsRegistered(s, retries);
    ProcessCounts(s, accepted, usec, retries, p);
  }

  lemma PollTimeoutEffect(s: State, q: TxId, accepted: bool, retries: nat, p: TxId)
    requires Inv(s, retries) && q in s.points && p in s.points && !Renews(s, DoPoll(q, accepted), p)
    requires p in s.tx ==> TimingOut(s, p)
    ensures TimeoutEffect(s, DoPoll(q, accepted), retries, p)
  {
    assert Sound(s, p, retries) && Sound(s, q, retries);
    PollCounts(s, q, accepted, retries, p);
  }

  lemma ReplyTimeoutEffect(s: State, r: Reply, retries: nat, p: TxId)
    requires Inv(s, retries) && Enabled(s, DoReply(r)) && p in s.points && TimeoutStep(s, DoReply(r), p)
    requires p in s.tx ==> TimingOut(s, p)
    ensures TimeoutEffect(s, DoReply(r), retries, p)
  {
    assert Sound(s, p, retries);
    QueuedAppend(s.queue, r, p);
  }

  lemma TimeoutStepEffect(s: State, step: Step, retries: nat, p: TxId)
    requires Inv(s, retries) && Enabled(s, step) && p in s.points && TimeoutStep(s, step, p)
    requires p in s.tx ==> TimingOut(s, p)
    ensures TimeoutEffect(s, step, retries, p)
  {
    match step
    case DoPoll(q, accepted) => PollTimeoutEffect(s, q, accepted, retries, p);
    case DoReply(r) => ReplyTimeoutEffect(s, r, retries, p);
    case DoProcess(accepted, usec) => ProcessTimeoutEffect(s, accepted, usec, retries, p);
    case DoCutoff(_) =>
  }

  lemma TimeoutStepProgress(s: State, step: Step, retries: nat, p: TxId, out: seq<Event>, rounds: nat, left: nat)
    requires Inv(s, retries) && Enabled(s, step) && TimeoutStep(s, step, p)
    requires TimeoutProgress(s, out, rounds, left, retries, p)
    ensures TimeoutProgress(Do(s, step, retries), out + Emitted(s, step, retries),
                            rounds + if Processes(s, step, p) then 1 else 0, left, retries, p)
  {
    TimeoutStepEffect(s, step, retries, p);
    CountsAdd(out, Emitted(s, step, retries), p);
  }

  /** Over every interleaving with other points: such a request uses exactly its remaining retries and then
      publishes one BAD; it has ended exactly when that many replies and one more have been processed. */
  lemma {:induction false} TimeoutsEnd(s: State, steps: seq<Step>, retries: nat, p: TxId)
    requires Inv(s, retries) && BadsCarryLastGood(s.log) && Run(s, steps, retries)
    requires TimingOut(s, p) && TimeoutRun(s, steps, retries, p)
    ensures p in s.points
    ensures
      var end, out := After(s, steps, retries), Added(s, steps, retries);
      var left, rounds := s.points[p].retriesLeft, Rounds(s, steps, retries, p);
      && TimeoutProgress(end, out, rounds, left, retries, p)
      && rounds <= left + 1
      && (p !in end.tx <==> rounds == left + 1)
    decreases |steps|
  {
    assert Sound(s, p, retries);
    if steps == [] {
    } else {
      var front, last := steps[..|steps| - 1], steps[|steps| - 1];
      RunKeepsInv(s, front, retries);
      TimeoutsEnd(s, front, retries, p);
      TimeoutStepProgress(After(s, front, retries), last, retries, p, Added(s, front, retries),
                          Rounds(s, front, retries, p), s.points[p].retriesLeft);
    }
  }

  /** The next step towards the end: answer the request if the stack has it, else process the queue's head. */
  function TowardsEnd(s: State, p: TxId): Step {
    if p in s.flight then DoReply(Reply(p, Timeout)) else DoProcess(true, "")
  }

  lemma TowardsEndStep(s: State, p: TxId, retries: nat)
    requires Inv(s, retries) && TimingOut(s, p)
    ensures Enabled(s, TowardsEnd(s, p)) && TimeoutStep(s, TowardsEnd(s, p), p)
    ensures
      var s' := Do(s, TowardsEnd(s, p), retries);
      && p in s.points && p in s'.points
      && s'.points[p].retriesLeft <= s.points[p].retriesLeft
      && (p in s'.tx && s'.points[p].retriesLeft == s.points[p].retriesLeft ==>
            s'.flight[p] < s.flight[p] || (s'.flight[p] == s.flight[p] && |s'.queue| < |s.queue|))
  {
    assert Sound(s, p, retries);
    if p !in s.flight {
      assert s.queue != [];
      QueuedIsRegistered(s, retries);
    }
  }

  /** And it can always end, from any such state, whatever else is queued. */
  lemma TimeoutsCanEnd(s: State, p: TxId, retries: nat) returns (steps: seq<Step>)
    requires Inv(s, retries) && BadsCarryLastGood(s.log) && TimingOut(s, p)
    ensures Run(s, steps, retries) && TimeoutRun(s, steps, retries, p) && p !in After(s, steps, retries).tx
  {
    steps := [];
    var now := s;
    while p in now.tx
      invariant Run(s, steps, retries) && TimeoutRun(s, steps, retries, p) && now == After(s, steps, retries)
      invariant Inv(now, retries) && (p in now.tx ==> TimingOut(now, p) && p in now.points)
      decreases if p in now.points then now.points[p].retriesLeft else 0, p in now.tx, now.flight[p], |now.queue|
    {
      var step := TowardsEnd(now, p);
      TowardsEndStep(now, p, retries);
      TimeoutStepEffect(now, step, retries, p);
      StepKeepsInv(now, step, retries);
      RunSnoc(s, steps, step, retries);
      assert (steps + [step])[..|steps|] == steps;
      steps, now := steps + [step], Do(now, step, retries);
    }
  }

  /** An accepted poll of an idle point starts such a request, with all its retries. */
  lemma AcceptedPollTimingOut(s: State, p: TxId, retries: nat)
    requires Inv(s, retries) && p in s.points && !s.points[p].await
    ensures
      var s' := Do(s, DoPoll(p, true), retries);
      Inv(s', retries) && TimingOut(s', p) && s'.points[p].retriesLeft == retries
  {
    assert Sound(s, p, retries);
    PollKeepsInv(s, p, retries, true);
    NoneQueued(s.queue, p);
  }

  lemma {:induction false} NoneQueued(queue: seq<Reply>, p: TxId)
    requires Queued(queue, p) == 0
    ensures OnlyTimeouts(queue, p)
  {
    if queue == [] {
    } else {
      NoneQueued(queue[1..], p);
    }
  }

  /** A registered request that nothing will answer. */
  predicate Stuck(s: State, p: TxId) {
    p in s.tx && Outstanding(s, p) == 0
  }

  /** A request gets stuck exactly when the stack refuses to take a resend of it. */
  lemma StuckOnlyByRefusedResend(s: State, step: Step, retries: nat, p: TxId)
    requires Inv(s, retries) && Enabled(s, step) && !Stuck(s, p)
    ensures Stuck(Do(s, step, retries), p) <==>
            step.DoProcess? && !step.accepted && s.queue[0] == Reply(p, Timeout)
            && p in s.points && s.points[p].retriesLeft > 0
  {
    assert Sound(s, p, retries);
    match step
    case DoPoll(q, _) =>
      assert Sound(s, q, retries);
    case DoReply(r) =>
      QueuedAppend(s.queue, r, p);
    case DoProcess(accepted, usec) =>
      StuckByProcess(s, accepted, usec, retries, p);
    case DoCutoff(_) =>
  }

  lemma StuckByProcess(s: State, accepted: bool, usec: string, retries: nat, p: TxId)
    requires Inv(s, retries) && s.queue != [] && !Stuck(s, p)
    ensures Stuck(ProcessResponse(s, accepted, usec), p) <==>
            !accepted && s.queue[0] == Reply(p, Timeout) && p in s.points && s.points[p].retriesLeft > 0
  {
    assert Sound(s, p, retries);
    QueuedIsRegistered(s, retries);
  }

  lemma PollLeavesStuck(s: State, q: TxId, accepted: bool, retries: nat, p: TxId)
    requires Inv(s, retries) && q in s.points && Stuck(s, p)
    ensures Stuck(Poll(s, q, retries, accepted), p)
    ensures
      var out := Emitted(s, DoPoll(q, accepted), retries);
      Calls(out, p) == 0 && Genuine(out, p) == 0
  {
    assert Sound(s, p, retries) && Sound(s, q, retries);
    var out := Emitted(s, DoPoll(q, accepted), retries);
    if |out| == 2 {
      CountsOfPair(out[0], out[1], p);
    }
  }

  lemma ProcessLeavesStuck(s: State, accepted: bool, usec: string, retries: nat, p: TxId)
    requires Inv(s, retries) && s.queue != [] && Stuck(s, p)
    ensures Stuck(ProcessResponse(s, accepted, usec), p)
    ensures
      var out := Emitted(s, DoProcess(accepted, usec), retries);
      Calls(out, p) == 0 && Genuine(out, p) == 0
  {
    assert Sound(s, p, retries);
    QueuedIsRegistered(s, retries);
  }

  /** A step leaves it stuck and sends or publishes nothing genuine for it. */
  lemma StuckStep(s: State, step: Step, retries: nat, p: TxId)
    requires Inv(s, retries) && Enabled(s, step) && Stuck(s, p)
    ensures Stuck(Do(s, step, retries), p)
    ensures Calls(Emitted(s, step, retries), p) == 0 && Genuine(Emitted(s, step, retries), p) == 0
  {
    match step
    case DoPoll(q, accepted) => PollLeavesStuck(s, q, accepted, retries, p);
    case DoReply(r) => QueuedAppend(s.queue, r, p);
    case DoProcess(accepted, usec) => ProcessLeavesStuck(s, accepted, usec, retries, p);
    case DoCutoff(_) =>
  }

  /** It then stays stuck in every run: the point is never requested again and publishes only dummy BADs. */
  lemma {:induction false} StuckForever(s: State, steps: seq<Step>, retries: nat, p: TxId)
    requires Inv(s, retries) && BadsCarryLastGood(s.log) && Run(s, steps, retries) && Stuck(s, p)
    ensures Stuck(After(s, steps, retries), p)
    ensures Calls(Added(s, steps, retries), p) == 0 && Genuine(Added(s, steps, retries), p) == 0
  {
    if steps == [] {
    } else {
      var front, last := steps[..|steps| - 1], steps[|steps| - 1];
      RunKeepsInv(s, front, retries);
      StuckForever(s, front, retries, p);
      StuckStep(After(s, front, retries), last, retries, p);
      CountsAdd(Added(s, front, retries), Emitted(After(s, front, retries), last, retries), p);
    }
  }

  /** Every point gets there from the start: an accepted poll, a timeout, a refused resend. */
  lemma StuckIsReachable(ps: set<TxId>, p: TxId, retries: nat) returns (steps: seq<Step>)
    requires p in ps && retries > 0
    ensures Registered(Start(ps)) && Run(Start(ps), steps, retries) && Stuck(After(Start(ps), steps, retries), p)
  {
    var s := Start(ps);
    InvInitially(ps, retries);
    var polled := Do(s, DoPoll(p, true), retries);
    RunSnoc(s, [], DoPoll(p, true), retries);
    PollKeepsInv(s, p, retries, true);
    var reply := Reply(p, Timeout);
    var replied := Do(polled, DoReply(reply), retries);
    RunSnoc(s, [] + [DoPoll(p, true)], DoReply(reply), retries);
    ReplyKeepsInv(polled, reply, retries);
    assert replied.queue == [reply];
    RunSnoc(s, [] + [DoPoll(p, true)] + [DoReply(reply)], DoProcess(false, ""), retries);
    steps := [] + [DoPoll(p, true)] + [DoReply(reply)] + [DoProcess(false, "")];
    assert replied.queue[1..] == [];
  }
}
