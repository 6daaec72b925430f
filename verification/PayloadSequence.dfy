/**
 Sequence numbers of published Sparkplug messages: one counter of a byte, shared by all message types,
 restarted by NBIRTH, and advanced only by messages that are actually handed to the client.
 */
module PayloadSequence {

  datatype Sent = Sent(isNBirth: bool, seqNo: nat)

  /** One call: whether it is for an NBIRTH, and whether encoding and handing over succeeded. */
  datatype Attempt = Attempt(isNBirth: bool, passes: bool)

  datatype Log = Log(counter: nat, sent: seq<Sent>)

  function Call(l: Log, a: Attempt): Log {
    var next := if a.isNBirth then 0 else (l.counter + 1) % 256;
    if a.passes then Log(next, l.sent + [Sent(a.isNBirth, next)]) else l
  }

  function Calls(attempts: seq<Attempt>): Log {
    if attempts == [] then Log(0, []) else Call(Calls(attempts[..|attempts| - 1]), attempts[|attempts| - 1])
  }

  /** How many of these messages come after the last NBIRTH among them; all of them if there is none. */
  function SinceNBirth(sent: seq<Sent>): nat {
    if sent == [] || sent[|sent| - 1].isNBirth then 0 else 1 + SinceNBirth(sent[..|sent| - 1])
  }

  lemma SinceAppend(sent: seq<Sent>, m: Sent)
    ensures SinceNBirth(sent + [m]) == if m.isNBirth then 0 else SinceNBirth(sent) + 1
  {
    assert (sent + [m])[..|sent|] == sent;
  }

  /** Every published message is numbered by its distance from the last NBIRTH, modulo 256. */
  ghost predicate Numbered(l: Log) {
    l.counter == SinceNBirth(l.sent) % 256
    && forall i :: 0 <= i < |l.sent| ==> l.sent[i].seqNo == SinceNBirth(l.sent[..i + 1]) % 256
  }

  lemma CountOnByte(n: nat)
    ensures (n % 256 + 1) % 256 == (n + 1) % 256
  {
  }

  lemma CallKeepsNumbered(l: Log, a: Attempt)
    requires Numbered(l)
    ensures Numbered(Call(l, a))
  {
    if a.passes {
      var m := Sent(a.isNBirth, Call(l, a).counter);
      var sent := l.sent + [m];
      SinceAppend(l.sent, m);
      CountOnByte(SinceNBirth(l.sent));
      assert m.seqNo == SinceNBirth(sent) % 256;
      forall i | 0 <= i < |sent|
        ensures sent[i].seqNo == SinceNBirth(sent[..i + 1]) % 256
      {
        if i < |l.sent| {
          assert sent[..i + 1] == l.sent[..i + 1];
        } else {
          assert sent[..i + 1] == sent;
        }
      }
    }
  }

  lemma {:induction false} NumberIsDistance(attempts: seq<Attempt>)
    ensures Numbered(Calls(attempts))
  {
    if attempts == [] {
    } else {
      NumberIsDistance(attempts[..|attempts| - 1]);
      CallKeepsNumbered(Calls(attempts[..|attempts| - 1]), attempts[|attempts| - 1]);
    }
  }

  lemma {:induction false} SinceRun(sent: seq<Sent>, j: nat)
    requires j < |sent| && sent[j].isNBirth
    requires forall i :: j < i < |sent| ==> !sent[i].isNBirth
    ensures SinceNBirth(sent) == |sent| - 1 - j
  {
    if j >= |sent| - 1 {
    } else {
      SinceRun(sent[..|sent| - 1], j);
    }
  }

  /** The k-th message published after an NBIRTH carries k modulo 256, whatever else was attempted. */
  lemma KthAfterNBirth(attempts: seq<Attempt>, j: nat, k: nat)
    requires j + k < |Calls(attempts).sent| && Calls(attempts).sent[j].isNBirth
    requires forall i :: j < i <= j + k ==> !Calls(attempts).sent[i].isNBirth
    ensures Calls(attempts).sent[j + k].seqNo == k % 256
  {
    NumberIsDistance(attempts);
    SinceRun(Calls(attempts).sent[..j + k + 1], j);
  }

  // ----- which messages are sent -----

  /** The attempts that pass, in order. */
  function Passing(attempts: seq<Attempt>): seq<Attempt> {
    if attempts == [] then []
    else
      var before, last := Passing(attempts[..|attempts| - 1]), attempts[|attempts| - 1];
      if last.passes then before + [last] else before
  }

  lemma {:induction false} SentArePassing(attempts: seq<Attempt>)
    ensures
      var sent, passing := Calls(attempts).sent, Passing(attempts);
      |sent| == |passing| && forall i :: 0 <= i < |sent| ==> sent[i].isNBirth == passing[i].isNBirth
  {
    if attempts == [] {
    } else {
      SentArePassing(attempts[..|attempts| - 1]);
    }
  }

  lemma {:induction false} PassingAppend(attempts: seq<Attempt>, a: Attempt)
    ensures Passing(attempts + [a]) == if a.passes then Passing(attempts) + [a] else Passing(attempts)
  {
    assert (attempts + [a])[..|attempts|] == attempts;
  }

  /** The counter stands at the number of passing attempts since a passing NBIRTH. */
  lemma {:induction false} CounterSince(attempts: seq<Attempt>, j: nat, m: nat)
    requires j <= m < |attempts| && attempts[j].passes && attempts[j].isNBirth
    requires forall i :: j < i <= m && attempts[i].passes ==> !attempts[i].isNBirth
    ensures Calls(attempts[..m + 1]).counter == |Passing(attempts[j + 1..m + 1])| % 256
    decreases m
  {
    assert attempts[..m + 1][..m] == attempts[..m];
    if m == j {
      assert attempts[j + 1..m + 1] == [];
    } else {
      CounterSince(attempts, j, m - 1);
      assert attempts[j + 1..m + 1] == attempts[j + 1..m] + [attempts[m]];
      PassingAppend(attempts[j + 1..m], attempts[m]);
      CountOnByte(|Passing(attempts[j + 1..m])|);
    }
  }

  /** The k-th attempt to pass after a passing NBIRTH is published with number k modulo 256. */
  lemma KthPassingNumber(attempts: seq<Attempt>, j: nat, m: nat)
    requires j < m < |attempts| && attempts[j].passes && attempts[j].isNBirth && attempts[m].passes
    requires forall i :: j < i <= m && attempts[i].passes ==> !attempts[i].isNBirth
    ensures
      var before, after := Calls(attempts[..m]).sent, Calls(attempts[..m + 1]).sent;
      after == before + [Sent(false, |Passing(attempts[j + 1..m + 1])| % 256)]
  {
    assert attempts[..m + 1][..m] == attempts[..m];
    CounterSince(attempts, j, m);
  }

  /** What has been sent stays sent. */
  lemma {:induction false} SentGrows(attempts: seq<Attempt>, m: nat)
    requires m <= |attempts|
    ensures Calls(attempts[..m]).sent <= Calls(attempts).sent
    decreases |attempts|
  {
    if m == |attempts| {
      assert attempts[..m] == attempts;
    } else {
      var front := attempts[..|attempts| - 1];
      SentGrows(front, m);
      assert front[..m] == attempts[..m];
    }
  }

  class ScadaClient {
    var payloadSequence: nat
    /** The messages handed to the MQTT client. */
    var sent: seq<Sent>

    function View(): Log
      reads this
    {
      Log(payloadSequence, sent)
    }

    constructor ()
      ensures View() == Calls([])
    {
      payloadSequence, sent := 0, [];
    }

    method PublishSparkplugMsg(isNBirth: bool, passes: bool) returns (ok: bool)
      modifies this
      ensures View() == Call(old(View()), Attempt(isNBirth, passes)) && ok == passes
    {
      var next := (payloadSequence + 1) % 256;
      if isNBirth {
        next := 0;
      }
      if !passes {
        return false;
      }
      sent := sent + [Sent(isNBirth, next)];
      payloadSequence := next;
      return true;
    }
  }
}
