/**
 The handlers of module PollProtocol as methods over the shared request state. The poll and cutoff
 threads walk a record's whole point list; both walks are runs of the protocol.
 */
module RequestInitiation {
  import opened PollProtocol

  function PollSteps(list: seq<TxId>, accepted: seq<bool>): seq<Step>
    requires |list| == |accepted|
  {
    if list == [] then []
    else
      var n := |list| - 1;
      PollSteps(list[..n], accepted[..n]) + [DoPoll(list[n], accepted[n])]
  }

  function CutoffSteps(list: seq<TxId>): seq<Step> {
    if list == [] then [] else CutoffSteps(list[..|list| - 1]) + [DoCutoff(list[|list| - 1])]
  }

  lemma {:induction false} PollStepsRun(s: State, list: seq<TxId>, accepted: seq<bool>, retries: nat)
    requires Registered(s) && |list| == |accepted| && forall p :: p in list ==> p in s.points
    ensures Run(s, PollSteps(list, accepted), retries)
  {
    if list == [] {
    } else {
      var n := |list| - 1;
      PollStepsRun(s, list[..n], accepted[..n], retries);
      RunSnoc(s, PollSteps(list[..n], accepted[..n]), DoPoll(list[n], accepted[n]), retries);
    }
  }

  lemma {:induction false} CutoffStepsRun(s: State, list: seq<TxId>, retries: nat)
    requires Registered(s) && forall p :: p in list ==> p in s.points
    ensures Run(s, CutoffSteps(list), retries)
  {
    if list == [] {
    } else {
      var n := |list| - 1;
      CutoffStepsRun(s, list[..n], retries);
      RunSnoc(s, CutoffSteps(list[..n]), DoCutoff(list[n]), retries);
    }
  }

  lemma PollStepsExtend(s: State, list: seq<TxId>, accepted: seq<bool>, i: nat, retries: nat)
    requires Registered(s) && i < |list| == |accepted| && forall p :: p in list ==> p in s.points
    ensures Run(s, PollSteps(list[..i], accepted[..i]), retries)
    ensures Run(s, PollSteps(list[..i + 1], accepted[..i + 1]), retries)
    ensures After(s, PollSteps(list[..i + 1], accepted[..i + 1]), retries)
            == Poll(After(s, PollSteps(list[..i], accepted[..i]), retries), list[i], retries, accepted[i])
  {
    PollStepsRun(s, list[..i], accepted[..i], retries);
    assert list[..i + 1][..i] == list[..i] && accepted[..i + 1][..i] == accepted[..i];
    RunSnoc(s, PollSteps(list[..i], accepted[..i]), DoPoll(list[i], accepted[i]), retries);
  }

  lemma CutoffStepsExtend(s: State, list: seq<TxId>, i: nat, retries: nat)
    requires Registered(s) && i < |list| && forall p :: p in list ==> p in s.points
    ensures Run(s, CutoffSteps(list[..i]), retries) && Run(s, CutoffSteps(list[..i + 1]), retries)
    ensures After(s, CutoffSteps(list[..i + 1]), retries)
            == Cutoff(After(s, CutoffSteps(list[..i]), retries), list[i])
  {
    CutoffStepsRun(s, list[..i], retries);
    assert list[..i + 1][..i] == list[..i];
    RunSnoc(s, CutoffSteps(list[..i]), DoCutoff(list[i]), retries);
  }

  class RequestInitiator {
    const retries: nat
    var points: map<TxId, Point>
    var txMap: map<TxId, TxId>
    var inFlight: multiset<TxId>
    var responses: seq<Reply>
    var log: seq<Event>

    function View(): State
      reads this
    {
      State(points, txMap, inFlight, responses, log)
    }

    constructor (ps: set<TxId>, retries: nat)
      ensures this.retries == retries && View() == Start(ps)
      ensures Inv(View(), retries)
    {
      this.retries := retries;
      points := map p | p in ps :: Point(false, false, 0, 0, 0, NO_VALUE);
      txMap, inFlight, responses, log := map[], multiset{}, [], [];
      new;
      InvInitially(ps, retries);
    }

    method PostDummyBADResponse(p: TxId, cause: Cause)
      requires p in points
      modifies this
      ensures View() == PostDummy(old(View()), p, cause)
    {
      log := log + [Bad(p, cause, points[p].lastGood)];
      points := points[p := points[p].(posted := true)];
    }

    method SendRequest(p: TxId, accepted: bool) returns (sent: bool)
      requires p in points
      modifies this
      ensures View() == PollProtocol.SendRequest(old(View()), p, retries, accepted) && sent == accepted
    {
      points := points[p := points[p].(retriesLeft := retries)];
      if p !in txMap {
        txMap := txMap[p := p];
      }
      log := log + [Call(p)];
      if accepted {
        inFlight := inFlight + multiset{p};
      }
      sent := accepted;
    }

    /** The poll of one point of the list. */
    method PollPoint(p: TxId, accepted: bool)
      requires p in points
      modifies this
      ensures View() == Poll(old(View()), p, retries, accepted)
    {
      if points[p].await {
        var lastTx := points[p].reqTx;
        PostDummyBADResponse(p, StillAwaiting);
        if lastTx !in txMap {
          points := points[p := points[p].(await := false)];
        }
        return;
      }
      points := points[p := points[p].(await := true, posted := false, reqTx := p, retried := 0)];
      var sent := SendRequest(p, accepted);
      if !sent {
        points := points[p := points[p].(await := false)];
        PostDummyBADResponse(p, SendFailed);
        txMap := txMap - {p};
        points := points[p := points[p].(reqTx := 0)];
      }
    }

    method InitiateRequest(list: seq<TxId>, accepted: seq<bool>)
      requires Registered(View()) && |list| == |accepted| && forall p :: p in list ==> p in points
      modifies this
      ensures Registered(View()) && Run(old(View()), PollSteps(list, accepted), retries)
      ensures View() == After(old(View()), PollSteps(list, accepted), retries)
    {
      assert list[..0] == [] && accepted[..0] == [];
      for i := 0 to |list|
        invariant Run(old(View()), PollSteps(list[..i], accepted[..i]), retries)
        invariant View() == After(old(View()), PollSteps(list[..i], accepted[..i]), retries)
      {
        PollPoint(list[i], accepted[i]);
        PollStepsExtend(old(View()), list, accepted, i, retries);
      }
      assert list[..|list|] == list && accepted[..|list|] == accepted;
    }

    /** The stack's callback: queues the reply. */
    method HandleResponse(r: Reply)
      requires r.tx in inFlight
      modifies this
      ensures View() == StackReply(old(View()), r)
    {
      inFlight := inFlight - multiset{r.tx};
      responses := responses + [r];
    }

    method CheckForRetry(r: Reply, accepted: bool) returns (deliver: bool)
      requires Registered(View())
      modifies this
      ensures (View(), deliver) == PollProtocol.CheckForRetry(old(View()), r, accepted)
    {
      deliver := false;
      if r.outcome == Timeout {
        if r.tx in txMap {
          var p := txMap[r.tx];
          if points[p].retriesLeft > 0 {
            points := points[p := points[p].(retried := points[p].retried + 1)];
            points := points[p := points[p].(retriesLeft := points[p].retriesLeft - 1)];
            assert points == old(points)[p := points[p]];
            log := log + [Call(p)];
            if accepted {
              inFlight := inFlight + multiset{p};
            }
          } else {
            deliver := true;
          }
        }
      } else {
        deliver := true;
      }
    }

    method PostResponse(r: Reply, usec: string)
      requires Registered(View())
      modifies this
      ensures View() == PollProtocol.PostResponse(old(View()), r, usec)
    {
      if r.tx !in txMap {
        return;
      }
      var p := txMap[r.tx];
      txMap := txMap - {r.tx};
      var pt := points[p].(await := false, reqTx := 0);
      match r.outcome {
        case Data(value) =>
          log := log + [Good(p, value, usec)];
          pt := pt.(lastGood := Cached(value, usec));
        case _ =>
          log := log + [Bad(p, FromDevice(r.outcome), pt.lastGood)];
      }
      points := points[p := pt.(posted := true)];
    }

    /** One turn of a response thread; an empty queue is left alone. */
    method RespProcess(accepted: bool, usec: string)
      requires Registered(View())
      modifies this
      ensures View() == if old(responses) == [] then old(View()) else ProcessResponse(old(View()), accepted, usec)
    {
      if responses == [] {
        return;
      }
      var r := responses[0];
      responses := responses[1..];
      var deliver := CheckForRetry(r, accepted);
      if deliver {
        assert Registered(View());
        PostResponse(r, usec);
      }
    }

    method CutoffPoint(p: TxId)
      requires p in points
      modifies this
      ensures View() == Cutoff(old(View()), p)
    {
      if !points[p].posted {
        PostDummyBADResponse(p, CutoffReached);
        points := points[p := points[p].(posted := true)];
        assert View() == PostDummy(old(View()), p, CutoffReached);
      }
    }

    /** One turn of a cutoff thread over a record's points. */
    method CheckCutoff(list: seq<TxId>)
      requires Registered(View()) && forall p :: p in list ==> p in points
      modifies this
      ensures Registered(View()) && Run(old(View()), CutoffSteps(list), retries)
      ensures View() == After(old(View()), CutoffSteps(list), retries)
    {
      assert list[..0] == [];
      for i := 0 to |list|
        invariant Run(old(View()), CutoffSteps(list[..i]), retries)
        invariant View() == After(old(View()), CutoffSteps(list[..i]), retries)
      {
        CutoffPoint(list[i]);
        CutoffStepsExtend(old(View()), list, i, retries);
      }
      assert list[..|list|] == list;
    }
  }
}
