/**
 Control loops of the KPI app: one monitoring thread a loop, a write thread and a response thread, all
 working on the map of tracked requests. Every access to that map is a step of its own, and the threads
 interleave between steps in any way.
 */
module ControlLoop {
  import opened Wrappers

  datatype Poll = Poll(driverSeq: string, bad: bool, payload: string)

  /** Tracked polls by loop and by request key. */
  type Maps = map<string, map<string, Poll>>

  // ----- keys -----

  /** Position of the last '-', -1 if there is none. */
  function LastDash(s: string): (d: int)
    ensures -1 <= d < |s|
  {
    if s == [] then -1
    else if s[|s| - 1] == '-' then |s| - 1
    else LastDash(s[..|s| - 1])
  }

  /** The loop that a key leads to: what follows the last '-'. */
  function Route(key: string): Option<string> {
    if LastDash(key) < 0 then None else Some(key[LastDash(key) + 1..])
  }

  function WriteKey(p: Poll, app: string, id: string): string {
    p.driverSeq + "-" + app + "-" + id
  }

  /** Loop ids are decimal numbers. */
  function Decimal(n: nat): (s: string)
    ensures |s| > 0
  {
    if n < 10 then ['0' + n as char] else Decimal(n / 10) + ['0' + (n % 10) as char]
  }

  lemma {:induction false} DecimalHasNoDash(n: nat)
    ensures '-' !in Decimal(n)
  {
    if n < 10 {
    } else {
      DecimalHasNoDash(n / 10);
    }
  }

  lemma {:induction false} DashBefore(prefix: string, id: string)
    requires '-' !in id
    ensures LastDash(prefix + "-" + id) == |prefix|
  {
    var s := prefix + "-" + id;
    if id == [] {
      assert s == prefix + "-";
    } else {
      assert s[..|s| - 1] == prefix + "-" + id[..|id| - 1];
      DashBefore(prefix, id[..|id| - 1]);
    }
  }

  /** A key leads to its loop, whatever the sequence number and the app name contain. */
  lemma KeyRoutesHome(p: Poll, app: string, n: nat)
    ensures Route(WriteKey(p, app, Decimal(n))) == Some(Decimal(n))
  {
    DecimalHasNoDash(n);
    RoutesTo(p, app, Decimal(n));
  }

  lemma RoutesTo(p: Poll, app: string, id: string)
    requires '-' !in id
    ensures Route(WriteKey(p, app, id)) == Some(id)
  {
    DashBefore(p.driverSeq + "-" + app, id);
  }

  /** For one loop a key tells the sequence number of its poll. */
  lemma KeyTellsSequence(p: Poll, q: Poll, app: string, id: string)
    requires WriteKey(p, app, id) == WriteKey(q, app, id)
    ensures p.driverSeq == q.driverSeq
  {
    var tail := "-" + app + "-" + id;
    assert WriteKey(p, app, id) == p.driverSeq + tail && WriteKey(q, app, id) == q.driverSeq + tail;
    assert (p.driverSeq + tail)[..|p.driverSeq|] == p.driverSeq;
    assert (q.driverSeq + tail)[..|q.driverSeq|] == q.driverSeq;
  }

  // ----- the tracking map -----

  function Get(maps: Maps, id: string): map<string, Poll> {
    if id in maps then maps[id] else map[]
  }

  /** Does not replace what is tracked under the key already. */
  function Insert(maps: Maps, id: string, key: string, p: Poll): Maps {
    var m := Get(maps, id);
    maps[id := if key in m then m else m[key := p]]
  }

  /** Looks a key up in the loop that it leads to, and removes it. */
  function Take(maps: Maps, key: string): (Maps, Option<Poll>) {
    match Route(key)
    case None => (maps, None)
    case Some(id) =>
      var m := Get(maps, id);
      (maps[id := m - {key}], if key in m then Some(m[key]) else None)
  }

  class MapOfReqMapper {
    var maps: Maps

    constructor ()
      ensures maps == map[]
    {
      maps := map[];
    }

    method RFind(s: string) returns (found: int)
      ensures found == LastDash(s)
    {
      found := |s| - 1;
      assert s[..|s|] == s;
      while found >= 0 && s[found] != '-'
        invariant -1 <= found < |s|
        invariant LastDash(s) == LastDash(s[..found + 1])
      {
        assert s[..found + 1][..found] == s[..found];
        found := found - 1;
      }
    }

    method CreateNewControlLoopMap(id: string) returns (created: bool)
      modifies this
      ensures created == (id !in old(maps))
      ensures maps == old(maps)[id := Get(old(maps), id)]
    {
      created := id !in maps;
      if created {
        maps := maps[id := map[]];
      }
      assert maps == old(maps)[id := Get(old(maps), id)];
    }

    method InsertForTracking(id: string, key: string, p: Poll)
      modifies this
      ensures maps == Insert(old(maps), id, key, p)
    {
      var m := if id in maps then maps[id] else map[];
      if key !in m {
        m := m[key := p];
      }
      maps := maps[id := m];
    }

    method GetForProcessing(key: string) returns (r: Option<Poll>)
      modifies this
      ensures (maps, r) == Take(old(maps), key)
    {
      var found := RFind(key);
      if found < 0 {
        return None;
      }
      var id := key[found + 1..];
      var m := if id in maps then maps[id] else map[];
      r := if key in m then Some(m[key]) else None;
      maps := maps[id := m - {key}];
    }

    /** Looking a loop up creates its map. */
    method IsPresent(id: string, key: string) returns (present: bool)
      modifies this
      ensures present == (key in Get(old(maps), id))
      ensures maps == old(maps)[id := Get(old(maps), id)]
    {
      var m := if id in maps then maps[id] else map[];
      maps := maps[id := m];
      present := key in m;
    }
  }

  // ----- the threads -----

  /** Where a monitoring thread stands with the poll message in its hands. */
  datatype Pc =
    | Idle
    | Arrived(p: Poll)
    | Expiring(p: Poll)
    | Fresh(p: Poll)
    | Waiting(p: Poll)
    | Tracking(p: Poll)
    | Queued(p: Poll)

  datatype Thread = Thread(pc: Pc, last: string)

  /** `accepted`, `held` and `emitted` count polls by loop: taken up, taken out of the map by some
      thread, and pushed as an analysis message. */
  datatype State = State(
    app: string,
    maps: Maps,
    threads: map<string, Thread>,
    writes: seq<string>,
    failed: multiset<string>,
    accepted: multiset<(string, Poll)>,
    held: multiset<(string, Poll)>,
    emitted: multiset<(string, Poll)>
  )

  datatype Step =
    | TakePoll(id: string, p: Poll)
    | CheckLast(id: string)
    | ExpireLast(id: string)
    | Judge(id: string)
    | Track(id: string)
    | PushWrite(id: string)
    | Remember(id: string)
    | WriteSent
    | WriteFailed
    | ExpireFailed(key: string)
    | Response(key: string)
    | Emit(id: string, p: Poll)

  predicate Enabled(s: State, step: Step) {
    match step
    case TakePoll(id, p) => id in s.threads && s.threads[id].pc.Idle?
    case CheckLast(id) => id in s.threads && s.threads[id].pc.Arrived?
    case ExpireLast(id) => id in s.threads && s.threads[id].pc.Expiring?
    case Judge(id) => id in s.threads && s.threads[id].pc.Fresh?
    case Track(id) => id in s.threads && s.threads[id].pc.Waiting?
    case PushWrite(id) => id in s.threads && s.threads[id].pc.Tracking?
    case Remember(id) => id in s.threads && s.threads[id].pc.Queued?
    case WriteSent => s.writes != []
    case WriteFailed => s.writes != []
    case ExpireFailed(key) => key in s.failed
    case Response(key) => key != ""
    case Emit(id, p) => (id, p) in s.held
  }

  /** Some thread calls getForProcessing. */
  function Release(s: State, key: string): State {
    var (maps, r) := Take(s.maps, key);
    match r
    case None => s.(maps := maps)
    case Some(p) => s.(maps := maps, held := s.held + multiset{(Route(key).value, p)})
  }

  function Goto(s: State, id: string, pc: Pc, last: string): State {
    s.(threads := s.threads[id := Thread(pc, last)])
  }

  function Do(s: State, step: Step): State
    requires Enabled(s, step)
  {
    match step
    case TakePoll(id, p) => Goto(s, id, Arrived(p), s.threads[id].last)
    case CheckLast(id) =>
      var t := s.threads[id];
      var s1 := s.(maps := s.maps[id := Get(s.maps, id)]);
      if t.last in Get(s.maps, id) then Goto(s1, id, Expiring(t.pc.p), t.last) else Goto(s1, id, Fresh(t.pc.p), "")
    case ExpireLast(id) =>
      var t := s.threads[id];
      Goto(Release(s, t.last), id, Fresh(t.pc.p), "")
    case Judge(id) =>
      var t := s.threads[id];
      var p := t.pc.p;
      if p.driverSeq == "" then Goto(s, id, Idle, t.last)
      else if p.bad then
        Goto(s.(accepted := s.accepted + multiset{(id, p)}, held := s.held + multiset{(id, p)}), id, Idle, t.last)
      else Goto(s, id, Waiting(p), t.last)
    case Track(id) =>
      var t := s.threads[id];
      var p := t.pc.p;
      Goto(s.(maps := Insert(s.maps, id, WriteKey(p, s.app, id), p), accepted := s.accepted + multiset{(id, p)}),
           id, Tracking(p), t.last)
    case PushWrite(id) =>
      var t := s.threads[id];
      Goto(s.(writes := s.writes + [WriteKey(t.pc.p, s.app, id)]), id, Queued(t.pc.p), t.last)
    case Remember(id) => Goto(s, id, Idle, WriteKey(s.threads[id].pc.p, s.app, id))
    case WriteSent => s.(writes := s.writes[1..])
    case WriteFailed => s.(writes := s.writes[1..], failed := s.failed + multiset{s.writes[0]})
    case ExpireFailed(key) => Release(s.(failed := s.failed - multiset{key}), key)
    case Response(key) => Release(s, key)
    case Emit(id, p) => s.(held := s.held - multiset{(id, p)}, emitted := s.emitted + multiset{(id, p)})
  }

  /** None once a step is not enabled. */
  function After(s: State, steps: seq<Step>): Option<State> {
    if steps == [] then Some(s)
    else
      match After(s, steps[..|steps| - 1])
      case None => None
      case Some(t) => if Enabled(t, steps[|steps| - 1]) then Some(Do(t, steps[|steps| - 1])) else None
  }

  ghost predicate Run(s: State, steps: seq<Step>, t: State) {
    After(s, steps) == Some(t)
  }

  /** Loops with numbers for ids, nothing tracked. */
  ghost predicate Start(s: State) {
    && s.maps == map[] && s.writes == [] && s.failed == multiset{}
    && s.accepted == multiset{} && s.held == multiset{} && s.emitted == multiset{}
    && forall id :: id in s.threads ==> s.threads[id] == Thread(Idle, "") && exists n: nat :: id == Decimal(n)
  }

  // ----- exactly once -----

  /** The only key that may be tracked for a loop. */
  function Current(app: string, id: string, t: Thread): set<string> {
    match t.pc
    case Idle => if t.last == "" then {} else {t.last}
    case Arrived(_) => if t.last == "" then {} else {t.last}
    case Expiring(_) => if t.last == "" then {} else {t.last}
    case Fresh(_) => {}
    case Waiting(_) => {}
    case Tracking(p) => {WriteKey(p, app, id)}
    case Queued(p) => {WriteKey(p, app, id)}
  }

  ghost predicate LoopOk(s: State, id: string) {
    && (id !in s.threads ==> Get(s.maps, id) == map[])
    && (id in s.threads ==>
          && '-' !in id
          && Get(s.maps, id).Keys <= Current(s.app, id, s.threads[id])
          && (s.threads[id].last != "" ==> Route(s.threads[id].last) == Some(id)))
  }

  function Tracked(s: State, id: string, p: Poll): nat {
    if p in Get(s.maps, id).Values then 1 else 0
  }

  ghost predicate Balanced(s: State, id: string, p: Poll) {
    s.accepted[(id, p)] == s.emitted[(id, p)] + s.held[(id, p)] + Tracked(s, id, p)
  }

  ghost predicate Inv(s: State) {
    && (forall id: string :: LoopOk(s, id))
    && (forall id: string, p: Poll :: Balanced(s, id, p))
  }

  lemma InvInitially(s: State)
    requires Start(s)
    ensures Inv(s)
  {
    forall id | id in s.threads
      ensures '-' !in id
    {
      var n: nat :| id == Decimal(n);
      DecimalHasNoDash(n);
    }
  }

  lemma ReleaseKeepsLoop(s: State, key: string, id: string)
    requires LoopOk(s, id)
    ensures LoopOk(Release(s, key), id)
  {
    assert Get(Release(s, key).maps, id).Keys <= Get(s.maps, id).Keys;
  }

  /** At most one poll is tracked, so what a key takes out leaves nothing behind. */
  lemma ReleaseKeepsBalance(s: State, key: string, id: string, p: Poll)
    requires LoopOk(s, id) && Balanced(s, id, p)
    ensures Balanced(Release(s, key), id, p)
  {
    var m := Get(s.maps, id);
    if Route(key) == Some(id) && key in m {
      assert m.Keys == {key};
      assert m - {key} == map[];
      assert p in m.Values <==> p == m[key];
    } else {
      assert Get(Release(s, key).maps, id) == m by {
        if Route(key) == Some(id) {
          assert m - {key} == m;
        }
      }
    }
  }

  lemma ReleaseKeepsInv(s: State, key: string)
    requires Inv(s)
    ensures Inv(Release(s, key))
  {
    forall id: string
      ensures LoopOk(Release(s, key), id)
    {
      ReleaseKeepsLoop(s, key, id);
    }
    forall id: string, p: Poll
      ensures Balanced(Release(s, key), id, p)
    {
      assert LoopOk(s, id);
      ReleaseKeepsBalance(s, key, id, p);
    }
  }

  /** A thread moves on; nothing else changes. */
  lemma GotoKeepsInv(s: State, id: string, pc: Pc, last: string)
    requires Inv(s) && id in s.threads
    requires Get(s.maps, id).Keys <= Current(s.app, id, Thread(pc, last))
    requires last != "" ==> Route(last) == Some(id)
    ensures Inv(Goto(s, id, pc, last))
  {
    var t := Goto(s, id, pc, last);
    forall i: string
      ensures LoopOk(t, i)
    {
      assert LoopOk(s, i);
    }
    forall i: string, p: Poll
      ensures Balanced(t, i, p)
    {
      assert Balanced(s, i, p);
    }
  }

  /** A poll with a bad status is accepted and reported at once. */
  lemma ReportKeepsInv(s: State, id: string, p: Poll)
    requires Inv(s)
    ensures Inv(s.(accepted := s.accepted + multiset{(id, p)}, held := s.held + multiset{(id, p)}))
  {
    var t := s.(accepted := s.accepted + multiset{(id, p)}, held := s.held + multiset{(id, p)});
    forall i: string
      ensures LoopOk(t, i)
    {
      assert LoopOk(s, i);
    }
    forall i: string, q: Poll
      ensures Balanced(t, i, q)
    {
      assert Balanced(s, i, q);
    }
  }

  lemma EmitKeepsInv(s: State, id: string, p: Poll)
    requires Inv(s) && (id, p) in s.held
    ensures Inv(Do(s, Emit(id, p)))
  {
    var t := Do(s, Emit(id, p));
    forall i: string
      ensures LoopOk(t, i)
    {
      assert LoopOk(s, i);
    }
    forall i: string, q: Poll
      ensures Balanced(t, i, q)
    {
      assert Balanced(s, i, q);
    }
  }

  /** Nothing is tracked for the loop, so the new request goes in. */
  lemma TrackKeepsInv(s: State, id: string)
    requires Inv(s) && Enabled(s, Track(id))
    ensures Inv(Do(s, Track(id)))
  {
    var p := s.threads[id].pc.p;
    var key := WriteKey(p, s.app, id);
    var t := Do(s, Track(id));
    assert LoopOk(s, id);
    RoutesTo(p, s.app, id);
    assert Get(s.maps, id) == map[];
    assert Get(t.maps, id) == map[key := p];
    forall i: string
      ensures LoopOk(t, i)
    {
      assert LoopOk(s, i);
    }
    forall i: string, q: Poll
      ensures Balanced(t, i, q)
    {
      assert Balanced(s, i, q);
    }
  }

  /** The map of a loop that is looked up is created if it is missing. */
  lemma TouchKeepsInv(s: State, id: string)
    requires Inv(s)
    ensures Inv(s.(maps := s.maps[id := Get(s.maps, id)]))
  {
    var t := s.(maps := s.maps[id := Get(s.maps, id)]);
    forall i: string
      ensures LoopOk(t, i)
    {
      assert LoopOk(s, i);
    }
    forall i: string, q: Poll
      ensures Balanced(t, i, q)
    {
      assert Balanced(s, i, q);
    }
  }

  lemma OthersKeepInv(s: State, writes: seq<string>, failed: multiset<string>)
    requires Inv(s)
    ensures Inv(s.(writes := writes, failed := failed))
  {
    var t := s.(writes := writes, failed := failed);
    forall i: string
      ensures LoopOk(t, i)
    {
      assert LoopOk(s, i);
    }
    forall i: string, q: Poll
      ensures Balanced(t, i, q)
    {
      assert Balanced(s, i, q);
    }
  }

  lemma ThreadKeepsInv(s: State, step: Step, id: string)
    requires Inv(s) && Enabled(s, step) && id in s.threads
    requires step in {CheckLast(id), ExpireLast(id), Judge(id), Remember(id)}
    ensures Inv(Do(s, step))
  {
    var t := s.threads[id];
    var p := t.pc.p;
    assert LoopOk(s, id);
    match step
    case CheckLast(_) =>
      TouchKeepsInv(s, id);
      var s1 := s.(maps := s.maps[id := Get(s.maps, id)]);
      if t.last in Get(s.maps, id) {
        GotoKeepsInv(s1, id, Expiring(p), t.last);
      } else {
        GotoKeepsInv(s1, id, Fresh(p), "");
      }
    case ExpireLast(_) =>
      ReleaseKeepsInv(s, t.last);
      assert LoopOk(Release(s, t.last), id);
      GotoKeepsInv(Release(s, t.last), id, Fresh(p), "");
    case Judge(_) =>
      if p.driverSeq == "" {
        GotoKeepsInv(s, id, Idle, t.last);
      } else if p.bad {
        ReportKeepsInv(s, id, p);
        var reported := s.(accepted := s.accepted + multiset{(id, p)}, held := s.held + multiset{(id, p)});
        GotoKeepsInv(reported, id, Idle, t.last);
      } else {
        GotoKeepsInv(s, id, Waiting(p), t.last);
      }
    case Remember(_) =>
      RoutesTo(p, s.app, id);
      GotoKeepsInv(s, id, Idle, WriteKey(p, s.app, id));
  }

  lemma StepKeepsInv(s: State, step: Step)
    requires Inv(s) && Enabled(s, step)
    ensures Inv(Do(s, step))
  {
    match step
    case TakePoll(id, p) =>
      assert LoopOk(s, id);
      GotoKeepsInv(s, id, Arrived(p), s.threads[id].last);
    case CheckLast(id) => ThreadKeepsInv(s, step, id);
    case ExpireLast(id) => ThreadKeepsInv(s, step, id);
    case Judge(id) => ThreadKeepsInv(s, step, id);
    case Track(id) => TrackKeepsInv(s, id);
    case PushWrite(id) =>
      var p := s.threads[id].pc.p;
      assert LoopOk(s, id);
      OthersKeepInv(s, s.writes + [WriteKey(p, s.app, id)], s.failed);
      GotoKeepsInv(s.(writes := s.writes + [WriteKey(p, s.app, id)]), id, Queued(p), s.threads[id].last);
    case Remember(id) => ThreadKeepsInv(s, step, id);
    case WriteSent => OthersKeepInv(s, s.writes[1..], s.failed);
    case WriteFailed => OthersKeepInv(s, s.writes[1..], s.failed + multiset{s.writes[0]});
    case ExpireFailed(key) =>
      OthersKeepInv(s, s.writes, s.failed - multiset{key});
      ReleaseKeepsInv(s.(failed := s.failed - multiset{key}), key);
    case Response(key) => ReleaseKeepsInv(s, key);
    case Emit(id, p) => EmitKeepsInv(s, id, p);
  }

  lemma {:induction false} RunKeepsInv(s: State, steps: seq<Step>, t: State)
    requires Inv(s) && Run(s, steps, t)
    ensures Inv(t)
  {
    if steps == [] {
    } else {
      var before := After(s, steps[..|steps| - 1]).value;
      RunKeepsInv(s, steps[..|steps| - 1], before);
      StepKeepsInv(before, steps[|steps| - 1]);
    }
  }

  /** In every run at most one request is tracked for a loop, and every accepted poll is accounted for
      exactly once: emitted, held by the thread that is about to emit it, or tracked. */
  lemma ExactlyOnce(s: State, steps: seq<Step>, t: State, id: string)
    requires Start(s) && Run(s, steps, t)
    ensures |Get(t.maps, id)| <= 1
    ensures forall p: Poll :: t.accepted[(id, p)] == t.emitted[(id, p)] + t.held[(id, p)] + Tracked(t, id, p)
  {
    InvInitially(s);
    RunKeepsInv(s, steps, t);
    forall p: Poll
      ensures t.accepted[(id, p)] == t.emitted[(id, p)] + t.held[(id, p)] + Tracked(t, id, p)
    {
      assert Balanced(t, id, p);
    }
    assert LoopOk(t, id);
    AtMostOne(t, id);
  }

  lemma AtMostOne(s: State, id: string)
    requires LoopOk(s, id)
    ensures |Get(s.maps, id)| <= 1
  {
    var m := Get(s.maps, id);
    if id in s.threads {
      var current := Current(s.app, id, s.threads[id]);
      assert |m.Keys| <= |current| by {
        SubsetSize(m.Keys, current);
      }
    }
  }

  lemma SubsetSize<T>(a: set<T>, b: set<T>)
    requires a <= b
    ensures |a| <= |b|
  {
    assert b == a + (b - a);
  }

  /** Once nothing is tracked or held, the analysis messages are exactly the accepted polls. */
  lemma AllReported(s: State, steps: seq<Step>, t: State)
    requires Start(s) && Run(s, steps, t)
    requires t.held == multiset{} && forall id :: Get(t.maps, id) == map[]
    ensures t.emitted == t.accepted
  {
    forall x: (string, Poll)
      ensures t.emitted[x] == t.accepted[x]
    {
      ExactlyOnce(s, steps, t, x.0);
    }
  }

  // ----- which poll a key releases -----

  /** Every poll is tracked under its own key. */
  ghost predicate KeysRight(maps: Maps, app: string) {
    forall id, key :: key in Get(maps, id) ==> key == WriteKey(Get(maps, id)[key], app, id)
  }

  lemma TakeKeepsKeys(maps: Maps, app: string, key: string)
    requires KeysRight(maps, app)
    ensures KeysRight(Take(maps, key).0, app)
  {
    forall id, k | k in Get(Take(maps, key).0, id)
      ensures k in Get(maps, id) && Get(Take(maps, key).0, id)[k] == Get(maps, id)[k]
    {
    }
  }

  lemma InsertKeepsKeys(maps: Maps, app: string, id: string, p: Poll)
    requires KeysRight(maps, app)
    ensures KeysRight(Insert(maps, id, WriteKey(p, app, id), p), app)
  {
    var key := WriteKey(p, app, id);
    forall i, k | k in Get(Insert(maps, id, key, p), i)
      ensures k == WriteKey(Get(Insert(maps, id, key, p), i)[k], app, i)
    {
      assert (i == id && k == key) || (k in Get(maps, i) && Get(Insert(maps, id, key, p), i)[k] == Get(maps, i)[k]);
    }
  }

  lemma TouchKeepsKeys(maps: Maps, app: string, id: string)
    requires KeysRight(maps, app)
    ensures KeysRight(maps[id := Get(maps, id)], app)
  {
    var touched := maps[id := Get(maps, id)];
    forall i, k | k in Get(touched, i)
      ensures k == WriteKey(Get(touched, i)[k], app, i)
    {
      assert Get(touched, i) == Get(maps, i);
    }
  }

  /** Releasing a key changes the map and who holds what, nothing else. */
  lemma ReleaseKeepsRest(s: State, key: string)
    ensures Release(s, key) == s.(maps := Take(s.maps, key).0, held := Release(s, key).held)
  {
  }

  lemma StepKeepsKeys(s: State, step: Step)
    requires KeysRight(s.maps, s.app) && Enabled(s, step)
    ensures KeysRight(Do(s, step).maps, s.app) && Do(s, step).app == s.app
  {
    match step
    case CheckLast(id) => TouchKeepsKeys(s.maps, s.app, id);
    case ExpireLast(id) =>
      TakeKeepsKeys(s.maps, s.app, s.threads[id].last);
      ReleaseKeepsRest(s, s.threads[id].last);
    case Track(id) => InsertKeepsKeys(s.maps, s.app, id, s.threads[id].pc.p);
    case ExpireFailed(key) =>
      TakeKeepsKeys(s.maps, s.app, key);
      ReleaseKeepsRest(s.(failed := s.failed - multiset{key}), key);
    case Response(key) =>
      TakeKeepsKeys(s.maps, s.app, key);
      ReleaseKeepsRest(s, key);
    case _ =>
  }

  lemma {:induction false} RunKeepsKeys(s: State, steps: seq<Step>, t: State)
    requires Start(s) && Run(s, steps, t)
    ensures KeysRight(t.maps, s.app) && t.app == s.app
  {
    if steps == [] {
    } else {
      var before := After(s, steps[..|steps| - 1]).value;
      RunKeepsKeys(s, steps[..|steps| - 1], before);
      StepKeepsKeys(before, steps[|steps| - 1]);
    }
  }

  /** In every run a key releases only a poll of the loop and with the sequence number that it is built from;
      so a late response cannot take the poll of another request. */
  lemma ReleasesItsOwn(s: State, steps: seq<Step>, t: State, q: Poll, n: nat)
    requires Start(s) && Run(s, steps, t)
    ensures
      var r := Take(t.maps, q.driverSeq + "-" + s.app + "-" + Decimal(n)).1;
      r.Some? ==> r.value.driverSeq == q.driverSeq && r.value in Get(t.maps, Decimal(n)).Values
  {
    var id := Decimal(n);
    var key := WriteKey(q, s.app, id);
    KeyRoutesHome(q, s.app, n);
    RunKeepsKeys(s, steps, t);
    if key in Get(t.maps, id) {
      KeyTellsSequence(q, Get(t.maps, id)[key], s.app, id);
    }
  }

  /** A response, a failed write or the next poll, whichever comes first for a tracked request, takes it out
      of the map and into the hands of the thread that reports it. */
  lemma TrackedIsReleased(s: State, step: Step, id: string, key: string)
    requires Inv(s) && Enabled(s, step) && id in s.threads && key in Get(s.maps, id)
    requires step in {Response(key), ExpireFailed(key), ExpireLast(id)}
    ensures
      var t := Do(s, step);
      && key !in Get(t.maps, id)
      && t.held == s.held + multiset{(id, Get(s.maps, id)[key])}
      && t.emitted == s.emitted && t.accepted == s.accepted
  {
    assert LoopOk(s, id);
    CurrentRoutes(s, id, key);
  }

  lemma CurrentRoutes(s: State, id: string, key: string)
    requires LoopOk(s, id) && id in s.threads && key in Get(s.maps, id)
    ensures Route(key) == Some(id)
    ensures s.threads[id].pc.Expiring? ==> key == s.threads[id].last
  {
    var pc := s.threads[id].pc;
    if pc.Tracking? || pc.Queued? {
      RoutesTo(pc.p, s.app, id);
    }
  }

  // ----- what is accepted, and what is written -----

  /** How often a loop has taken up a poll message. */
  function TakenUp(steps: seq<Step>, id: string, p: Poll): nat {
    if steps == [] then 0
    else TakenUp(steps[..|steps| - 1], id, p) + if steps[|steps| - 1] == TakePoll(id, p) then 1 else 0
  }

  /** The monitoring thread has taken up the poll and not yet decided on it. */
  function Undecided(s: State, id: string, p: Poll): nat {
    if id in s.threads && s.threads[id].pc in {Arrived(p), Expiring(p), Fresh(p), Waiting(p)} then 1 else 0
  }

  /** Only polls with a sequence number and a good status wait for their write request or have one. */
  ghost predicate OnlyGoodWaits(s: State) {
    forall id :: id in s.threads ==>
      var pc := s.threads[id].pc;
      pc.Waiting? || pc.Tracking? || pc.Queued? ==> pc.p.driverSeq != "" && !pc.p.bad
  }

  /** What a step of the thread `id` does to the sum of what it has accepted and has not decided on. */
  ghost predicate AcceptsRight(s: State, t: State, step: Step, id: string, p: Poll) {
    if p.driverSeq == "" then t.accepted[(id, p)] == s.accepted[(id, p)]
    else t.accepted[(id, p)] + Undecided(t, id, p) ==
         s.accepted[(id, p)] + Undecided(s, id, p) + if step == TakePoll(id, p) then 1 else 0
  }

  lemma CheckAccepts(s: State, step: Step, id: string, p: Poll)
    requires Enabled(s, step) && step.CheckLast?
    ensures AcceptsRight(s, Do(s, step), step, id, p)
    ensures OnlyGoodWaits(s) ==> OnlyGoodWaits(Do(s, step))
  {
  }

  lemma ExpireAccepts(s: State, step: Step, id: string, p: Poll)
    requires Enabled(s, step) && step.ExpireLast?
    ensures AcceptsRight(s, Do(s, step), step, id, p)
    ensures OnlyGoodWaits(s) ==> OnlyGoodWaits(Do(s, step))
  {
    ReleaseKeepsRest(s, s.threads[step.id].last);
  }

  lemma JudgeAccepts(s: State, step: Step, id: string, p: Poll)
    requires Enabled(s, step) && step.Judge? && OnlyGoodWaits(s)
    ensures AcceptsRight(s, Do(s, step), step, id, p) && OnlyGoodWaits(Do(s, step))
  {
    JudgeGoes(s, step.id);
    if id != step.id {
      assert Undecided(Do(s, step), id, p) == Undecided(s, id, p);
    }
  }

  /** Where the judgement of a poll leads its thread, and whether the poll is accepted by it. */
  lemma JudgeGoes(s: State, id: string)
    requires Enabled(s, Judge(id))
    ensures
      var t, p := Do(s, Judge(id)), s.threads[id].pc.p;
      && t.threads ==
         s.threads[id := Thread(if p.driverSeq == "" || p.bad then Idle else Waiting(p), s.threads[id].last)]
      && t.accepted == s.accepted + if p.driverSeq != "" && p.bad then multiset{(id, p)} else multiset{}
  {
  }

  lemma TrackAccepts(s: State, step: Step, id: string, p: Poll)
    requires Enabled(s, step) && step.Track? && OnlyGoodWaits(s)
    ensures AcceptsRight(s, Do(s, step), step, id, p) && OnlyGoodWaits(Do(s, step))
  {
  }

  lemma RestAccepts(s: State, step: Step, id: string, p: Poll)
    requires Enabled(s, step) && !step.CheckLast? && !step.ExpireLast? && !step.Judge? && !step.Track?
    ensures AcceptsRight(s, Do(s, step), step, id, p)
    ensures OnlyGoodWaits(s) ==> OnlyGoodWaits(Do(s, step))
  {
    match step
    case ExpireFailed(key) => ReleaseKeepsRest(s.(failed := s.failed - multiset{key}), key);
    case Response(key) => ReleaseKeepsRest(s, key);
    case _ =>
  }

  lemma StepAccepts(s: State, step: Step, id: string, p: Poll)
    requires OnlyGoodWaits(s) && Enabled(s, step)
    ensures OnlyGoodWaits(Do(s, step)) && AcceptsRight(s, Do(s, step), step, id, p)
  {
    match step
    case CheckLast(_) => CheckAccepts(s, step, id, p);
    case ExpireLast(_) => ExpireAccepts(s, step, id, p);
    case Judge(_) => JudgeAccepts(s, step, id, p);
    case Track(_) => TrackAccepts(s, step, id, p);
    case _ => RestAccepts(s, step, id, p);
  }

  /** In every run exactly the polls with a sequence number are accepted, each as often as it was taken up,
      apart from one that a thread is still about to decide on. */
  lemma {:induction false} AcceptedExactly(s: State, steps: seq<Step>, t: State, id: string, p: Poll)
    requires Start(s) && Run(s, steps, t)
    ensures OnlyGoodWaits(t)
    ensures t.accepted[(id, p)] == if p.driverSeq == "" then 0 else TakenUp(steps, id, p) - Undecided(t, id, p)
  {
    if steps == [] {
    } else {
      var before := After(s, steps[..|steps| - 1]).value;
      AcceptedExactly(s, steps[..|steps| - 1], before, id, p);
      StepAccepts(before, steps[|steps| - 1], id, p);
    }
  }

  /** How often a request has been put into the map under the key. */
  ghost function Requested(s: State, steps: seq<Step>, key: string): nat
    requires After(s, steps).Some?
  {
    if steps == [] then 0
    else
      var before, last := After(s, steps[..|steps| - 1]).value, steps[|steps| - 1];
      Requested(s, steps[..|steps| - 1], key)
      + if last.Track? && WriteKey(before.threads[last.id].pc.p, before.app, last.id) == key then 1 else 0
  }

  /** How often the write thread has taken the key up, to publish it or to fail. */
  ghost function Written(s: State, steps: seq<Step>, key: string): nat
    requires After(s, steps).Some?
  {
    if steps == [] then 0
    else
      var before, last := After(s, steps[..|steps| - 1]).value, steps[|steps| - 1];
      Written(s, steps[..|steps| - 1], key)
      + if (last.WriteSent? || last.WriteFailed?) && before.writes[0] == key then 1 else 0
  }

  /** The thread of the loop that the key leads to has tracked the request and not yet queued it. */
  function Unqueued(s: State, key: string): nat {
    var id := Route(key);
    if id.Some? && id.value in s.threads && s.threads[id.value].pc.Tracking?
       && WriteKey(s.threads[id.value].pc.p, s.app, id.value) == key then 1 else 0
  }

  ghost predicate WritesRight(s: State, t: State, step: Step, key: string)
    requires Enabled(s, step)
  {
    var tracks := step.Track? && WriteKey(s.threads[step.id].pc.p, s.app, step.id) == key;
    var writes := (step.WriteSent? || step.WriteFailed?) && s.writes[0] == key;
    multiset(t.writes)[key] + Unqueued(t, key) + (if writes then 1 else 0) ==
    multiset(s.writes)[key] + Unqueued(s, key) + (if tracks then 1 else 0)
  }

  lemma TrackWrites(s: State, step: Step, key: string)
    requires Enabled(s, step) && (step.Track? || step.PushWrite?) && '-' !in step.id
    ensures WritesRight(s, Do(s, step), step, key)
  {
    RoutesTo(s.threads[step.id].pc.p, s.app, step.id);
  }

  /** A thread that was not about to queue a request, and is not now, changes nothing here. */
  lemma UnqueuedSame(s: State, t: State, id: string, thread: Thread, key: string)
    requires id in s.threads && t.threads == s.threads[id := thread] && t.app == s.app
    requires !s.threads[id].pc.Tracking? && !thread.pc.Tracking?
    ensures Unqueued(t, key) == Unqueued(s, key)
  {
  }

  /** The thread `id` has moved on, and not to queue a request. */
  ghost predicate Moved(s: State, t: State, id: string) {
    && t.writes == s.writes && t.app == s.app && id in t.threads
    && t.threads == s.threads[id := t.threads[id]] && !t.threads[id].pc.Tracking?
  }

  lemma CheckWrites(s: State, step: Step, key: string)
    requires Enabled(s, step) && (step.CheckLast? || step.ExpireLast? || step.Judge?)
    ensures WritesRight(s, Do(s, step), step, key)
  {
    match step {
      case CheckLast(id) => CheckMoves(s, id);
      case ExpireLast(id) => ExpireMoves(s, id);
      case Judge(id) => JudgeMoves(s, id);
    }
    var t := Do(s, step);
    UnqueuedSame(s, t, step.id, t.threads[step.id], key);
  }

  lemma CheckMoves(s: State, id: string)
    requires Enabled(s, CheckLast(id))
    ensures Moved(s, Do(s, CheckLast(id)), id)
  {
  }

  lemma ExpireMoves(s: State, id: string)
    requires Enabled(s, ExpireLast(id))
    ensures Moved(s, Do(s, ExpireLast(id)), id)
  {
    ReleaseKeepsRest(s, s.threads[id].last);
  }

  lemma JudgeMoves(s: State, id: string)
    requires Enabled(s, Judge(id))
    ensures Moved(s, Do(s, Judge(id)), id)
  {
    JudgeGoes(s, id);
  }

  lemma RestWrites(s: State, step: Step, key: string)
    requires Enabled(s, step) && !step.Track? && !step.PushWrite?
    requires !step.CheckLast? && !step.ExpireLast? && !step.Judge?
    ensures WritesRight(s, Do(s, step), step, key)
  {
    match step
    case WriteSent => assert s.writes == [s.writes[0]] + s.writes[1..];
    case WriteFailed => assert s.writes == [s.writes[0]] + s.writes[1..];
    case ExpireFailed(k) => ReleaseKeepsRest(s.(failed := s.failed - multiset{k}), k);
    case Response(k) => ReleaseKeepsRest(s, k);
    case _ =>
  }

  lemma StepWrites(s: State, step: Step, key: string)
    requires Enabled(s, step) && forall id :: id in s.threads ==> '-' !in id
    ensures WritesRight(s, Do(s, step), step, key)
  {
    match step
    case Track(_) => TrackWrites(s, step, key);
    case PushWrite(_) => TrackWrites(s, step, key);
    case CheckLast(_) => CheckWrites(s, step, key);
    case ExpireLast(_) => CheckWrites(s, step, key);
    case Judge(_) => CheckWrites(s, step, key);
    case _ => RestWrites(s, step, key);
  }

  /** In every run every tracked request is queued for writing once and written once or still on its way. */
  lemma {:induction false} WrittenExactly(s: State, steps: seq<Step>, t: State, key: string)
    requires Start(s) && Run(s, steps, t)
    ensures Requested(s, steps, key) == Written(s, steps, key) + multiset(t.writes)[key] + Unqueued(t, key)
  {
    if steps == [] {
    } else {
      var before := After(s, steps[..|steps| - 1]).value;
      WrittenExactly(s, steps[..|steps| - 1], before, key);
      InvInitially(s);
      RunKeepsInv(s, steps[..|steps| - 1], before);
      forall id | id in before.threads
        ensures '-' !in id
      {
        assert LoopOk(before, id);
      }
      StepWrites(before, steps[|steps| - 1], key);
    }
  }

  /** How often publishing a write request has failed for the key. */
  ghost function Failed(s: State, steps: seq<Step>, key: string): nat
    requires After(s, steps).Some?
  {
    if steps == [] then 0
    else
      var before, last := After(s, steps[..|steps| - 1]).value, steps[|steps| - 1];
      Failed(s, steps[..|steps| - 1], key) + if last.WriteFailed? && before.writes[0] == key then 1 else 0
  }

  function Expired(steps: seq<Step>, key: string): nat {
    if steps == [] then 0
    else Expired(steps[..|steps| - 1], key) + if steps[|steps| - 1] == ExpireFailed(key) then 1 else 0
  }

  lemma StepFails(s: State, step: Step, key: string)
    requires Enabled(s, step)
    ensures Do(s, step).failed[key] + (if step == ExpireFailed(key) then 1 else 0) ==
            s.failed[key] + if step.WriteFailed? && s.writes[0] == key then 1 else 0
  {
    match step
    case ExpireLast(id) => ReleaseKeepsRest(s, s.threads[id].last);
    case ExpireFailed(k) => ReleaseKeepsRest(s.(failed := s.failed - multiset{k}), k);
    case Response(k) => ReleaseKeepsRest(s, k);
    case _ =>
  }

  /** In every run each failed publication has its key taken for a report once, or is about to. */
  lemma {:induction false} FailedExactly(s: State, steps: seq<Step>, t: State, key: string)
    requires Start(s) && Run(s, steps, t)
    ensures Failed(s, steps, key) == Expired(steps, key) + t.failed[key]
  {
    if steps == [] {
    } else {
      var before := After(s, steps[..|steps| - 1]).value;
      FailedExactly(s, steps[..|steps| - 1], before, key);
      StepFails(before, steps[|steps| - 1], key);
    }
  }

  // ----- the thread bodies, run one after the other -----

  lemma RunSnoc(s: State, steps: seq<Step>, t: State, step: Step)
    requires Run(s, steps, t) && Enabled(t, step)
    ensures Run(s, steps + [step], Do(t, step))
  {
    assert (steps + [step])[..|steps|] == steps;
  }

  /** The message that follows when a key is taken for processing. */
  function EmitTaken(maps: Maps, key: string): seq<Step> {
    match Take(maps, key).1
    case None => []
    case Some(p) => [Emit(Route(key).value, p)]
  }

  /** Taking a key and emitting what was found. */
  function Reported(s: State, key: string): State {
    var (maps, r) := Take(s.maps, key);
    s.(maps := maps, emitted := s.emitted + if r.Some? then multiset{(Route(key).value, r.value)} else multiset{})
  }

  lemma ResponseSteps(s: State, key: string)
    requires key != "" && s.held == multiset{}
    ensures Run(s, [Response(key)] + EmitTaken(s.maps, key), Reported(s, key))
  {
    assert Run(s, [], s);
    assert [] + [Response(key)] == [Response(key)];
    RunSnoc(s, [], s, Response(key));
    EmitSteps(s, [Response(key)], s, key);
  }

  lemma FailureSteps(s: State, key: string)
    requires s.writes != [] && key == s.writes[0] && s.held == multiset{} && s.failed == multiset{}
    ensures Run(s, [WriteFailed, ExpireFailed(key)] + EmitTaken(s.maps, key),
                Reported(s.(writes := s.writes[1..]), key))
  {
    assert Run(s, [], s);
    assert [] + [WriteFailed] == [WriteFailed];
    RunSnoc(s, [], s, WriteFailed);
    var t := Do(s, WriteFailed);
    assert t.failed - multiset{key} == s.failed;
    assert [WriteFailed] + [ExpireFailed(key)] == [WriteFailed, ExpireFailed(key)];
    RunSnoc(s, [WriteFailed], t, ExpireFailed(key));
    EmitSteps(s, [WriteFailed, ExpireFailed(key)], s.(writes := s.writes[1..]), key);
  }

  /** Emitting what a step has just taken from `t`. */
  lemma EmitSteps(s: State, steps: seq<Step>, t: State, key: string)
    requires t.held == multiset{} && Run(s, steps, Release(t, key))
    ensures Run(s, steps + EmitTaken(t.maps, key), Reported(t, key))
  {
    match Take(t.maps, key).1
    case None =>
      assert t.emitted + multiset{} == t.emitted;
      assert steps + [] == steps;
    case Some(p) =>
      var message := (Route(key).value, p);
      RunSnoc(s, steps, Release(t, key), Emit(message.0, p));
      assert Release(t, key).held - multiset{message} == multiset{};
  }

  /** Up to the end of the check for the last request. */
  function CheckSteps(s: State, id: string, p: Poll): seq<Step>
    requires id in s.threads
  {
    var last := s.threads[id].last;
    [TakePoll(id, p), CheckLast(id)]
    + if last in Get(s.maps, id) then [ExpireLast(id)] + EmitTaken(s.maps[id := Get(s.maps, id)], last) else []
  }

  function Checked(s: State, id: string): State
    requires id in s.threads
  {
    var last := s.threads[id].last;
    var s1 := s.(maps := s.maps[id := Get(s.maps, id)]);
    Goto(if last in Get(s.maps, id) then Reported(s1, last) else s1, id, Idle, "")
  }

  function JudgeSteps(id: string, p: Poll): seq<Step> {
    [Judge(id)]
    + if p.driverSeq == "" then [] else if p.bad then [Emit(id, p)] else [Track(id), PushWrite(id), Remember(id)]
  }

  function Judged(s: State, id: string, p: Poll): State {
    var key := WriteKey(p, s.app, id);
    if p.driverSeq == "" then s
    else if p.bad then s.(accepted := s.accepted + multiset{(id, p)}, emitted := s.emitted + multiset{(id, p)})
    else
      Goto(s.(maps := Insert(s.maps, id, key, p), accepted := s.accepted + multiset{(id, p)},
              writes := s.writes + [key]),
           id, Idle, key)
  }

  /** What a monitoring thread makes of a poll message, undisturbed. */
  function Monitored(s: State, id: string, p: Poll): State
    requires id in s.threads
  {
    Judged(Checked(s, id), id, p)
  }

  lemma BeginRun(s: State, id: string, p: Poll)
    requires id in s.threads && s.threads[id].pc == Idle
    ensures
      var last := s.threads[id].last;
      var s1 := s.(maps := s.maps[id := Get(s.maps, id)]);
      Run(s, [TakePoll(id, p), CheckLast(id)],
          if last in Get(s.maps, id) then Goto(s1, id, Expiring(p), last) else Goto(s1, id, Fresh(p), ""))
  {
    var arrived := Goto(s, id, Arrived(p), s.threads[id].last);
    assert Run(s, [], s);
    RunSnoc(s, [], s, TakePoll(id, p));
    assert [] + [TakePoll(id, p)] == [TakePoll(id, p)];
    RunSnoc(s, [TakePoll(id, p)], arrived, CheckLast(id));
    assert [TakePoll(id, p)] + [CheckLast(id)] == [TakePoll(id, p), CheckLast(id)];
    GotoTwice(s.(maps := s.maps[id := Get(s.maps, id)]), id, Arrived(p), s.threads[id].last);
  }

  lemma GotoTwice(s: State, id: string, pc: Pc, last: string)
    ensures forall pc', last' :: Goto(Goto(s, id, pc, last), id, pc', last') == Goto(s, id, pc', last')
  {
    forall pc', last'
      ensures Goto(Goto(s, id, pc, last), id, pc', last') == Goto(s, id, pc', last')
    {
      assert s.threads[id := Thread(pc, last)][id := Thread(pc', last')] == s.threads[id := Thread(pc', last')];
    }
  }

  /** The thread takes its last key while it holds a poll message. */
  lemma ExpireRun(s: State, steps: seq<Step>, t: State, id: string, p: Poll, last: string)
    requires id in t.threads && t.held == multiset{}
    requires Run(s, steps, Goto(t, id, Expiring(p), last))
    ensures Run(s, steps + ([ExpireLast(id)] + EmitTaken(t.maps, last)), Goto(Reported(t, last), id, Fresh(p), ""))
  {
    RunSnoc(s, steps, Goto(t, id, Expiring(p), last), ExpireLast(id));
    assert Release(Goto(t, id, Expiring(p), last), last) == Goto(Release(t, last), id, Expiring(p), last);
    GotoTwice(Release(t, last), id, Expiring(p), last);
    assert Release(Goto(t, id, Fresh(p), ""), last) == Goto(Release(t, last), id, Fresh(p), "");
    EmitSteps(s, steps + [ExpireLast(id)], Goto(t, id, Fresh(p), ""), last);
    assert steps + ([ExpireLast(id)] + EmitTaken(t.maps, last)) == steps + [ExpireLast(id)] + EmitTaken(t.maps, last);
  }

  lemma CheckRun(s: State, id: string, p: Poll)
    requires id in s.threads && s.threads[id].pc == Idle && s.held == multiset{}
    ensures Run(s, CheckSteps(s, id, p), Goto(Checked(s, id), id, Fresh(p), ""))
  {
    var last := s.threads[id].last;
    var s1 := s.(maps := s.maps[id := Get(s.maps, id)]);
    var begin := [TakePoll(id, p), CheckLast(id)];
    BeginRun(s, id, p);
    if last in Get(s.maps, id) {
      ExpireRun(s, begin, s1, id, p, last);
      GotoTwice(Reported(s1, last), id, Idle, "");
    } else {
      assert begin + [] == begin;
      GotoTwice(s1, id, Idle, "");
    }
  }

  lemma JudgeRun(s: State, steps: seq<Step>, t: State, id: string, p: Poll)
    requires id in t.threads && t.threads[id] == Thread(Idle, "") && t.held == multiset{}
    requires Run(s, steps, Goto(t, id, Fresh(p), ""))
    ensures Run(s, steps + JudgeSteps(id, p), Judged(t, id, p))
  {
    var judging := Goto(t, id, Fresh(p), "");
    var judged := steps + [Judge(id)];
    RunSnoc(s, steps, judging, Judge(id));
    assert Goto(judging, id, Idle, "") == t;
    if p.driverSeq == "" {
      assert [Judge(id)] + [] == [Judge(id)];
    } else if p.bad {
      var reported := judging.(accepted := t.accepted + multiset{(id, p)}, held := t.held + multiset{(id, p)});
      var done := Goto(reported, id, Idle, "");
      assert done.held - multiset{(id, p)} == multiset{};
      RunSnoc(s, judged, done, Emit(id, p));
      assert steps + ([Judge(id)] + [Emit(id, p)]) == judged + [Emit(id, p)];
      assert Do(done, Emit(id, p)) == Judged(t, id, p);
    } else {
      GotoTwice(t, id, Fresh(p), "");
      TrackRun(s, judged, t, id, p);
      assert steps + ([Judge(id)] + [Track(id), PushWrite(id), Remember(id)])
          == judged + [Track(id), PushWrite(id), Remember(id)];
    }
  }

  lemma TrackRun(s: State, steps: seq<Step>, t: State, id: string, p: Poll)
    requires id in t.threads && p.driverSeq != "" && !p.bad
    requires Run(s, steps, Goto(t, id, Waiting(p), ""))
    ensures Run(s, steps + [Track(id), PushWrite(id), Remember(id)], Judged(t, id, p))
  {
    var key := WriteKey(p, t.app, id);
    var t1 := t.(maps := Insert(t.maps, id, key, p), accepted := t.accepted + multiset{(id, p)});
    var t2 := t1.(writes := t1.writes + [key]);
    RunSnoc(s, steps, Goto(t, id, Waiting(p), ""), Track(id));
    GotoTwice(t1, id, Waiting(p), "");
    assert Do(Goto(t, id, Waiting(p), ""), Track(id)) == Goto(t1, id, Tracking(p), "");
    RunSnoc(s, steps + [Track(id)], Goto(t1, id, Tracking(p), ""), PushWrite(id));
    GotoTwice(t2, id, Tracking(p), "");
    assert Do(Goto(t1, id, Tracking(p), ""), PushWrite(id)) == Goto(t2, id, Queued(p), "");
    RunSnoc(s, steps + [Track(id)] + [PushWrite(id)], Goto(t2, id, Queued(p), ""), Remember(id));
    GotoTwice(t2, id, Queued(p), "");
    assert Do(Goto(t2, id, Queued(p), ""), Remember(id)) == Goto(t2, id, Idle, key);
    assert steps + [Track(id), PushWrite(id), Remember(id)] == steps + [Track(id)] + [PushWrite(id)] + [Remember(id)];
  }

  /** A turn of a monitoring thread is a run of the protocol. */
  lemma MonitorRun(s: State, id: string, p: Poll)
    requires id in s.threads && s.threads[id].pc == Idle && s.held == multiset{}
    ensures Run(s, CheckSteps(s, id, p) + JudgeSteps(id, p), Monitored(s, id, p))
  {
    CheckRun(s, id, p);
    JudgeRun(s, CheckSteps(s, id, p), Checked(s, id), id, p);
  }

  /** Monitoring threads between two poll messages. */
  function IdleThreads(last: map<string, string>): map<string, Thread> {
    map id | id in last :: Thread(Idle, last[id])
  }

  lemma IdleThreadsUpdate(last: map<string, string>, id: string, key: string)
    ensures IdleThreads(last[id := key]) == IdleThreads(last)[id := Thread(Idle, key)]
  {
  }

  class ControlLoopApp {
    const app: string
    const mapper: MapOfReqMapper
    /** The last write sequence of every monitoring thread. */
    var last: map<string, string>
    var writes: seq<string>
    var analysis: seq<(string, Poll)>
    ghost var accepted: multiset<(string, Poll)>

    ghost function View(): State
      reads this, mapper
    {
      State(app, mapper.maps, IdleThreads(last), writes, multiset{}, accepted, multiset{}, multiset(analysis))
    }

    constructor (app: string, ids: set<string>)
      requires forall id :: id in ids ==> exists n: nat :: id == Decimal(n)
      ensures Start(View()) && View().threads.Keys == ids && fresh(mapper)
    {
      this.app := app;
      mapper := new MapOfReqMapper();
      last := map id | id in ids :: "";
      writes, analysis, accepted := [], [], multiset{};
    }

    /** Reports the request behind a key, if it is still tracked. */
    method PostAnalysisFor(key: string)
      modifies mapper, this`analysis
      ensures View() == Reported(old(View()), key)
    {
      var r := mapper.GetForProcessing(key);
      if r.Some? {
        analysis := analysis + [(Route(key).value, r.value)];
      }
    }

    /** One turn of the response thread. */
    method AnalyzeResponse(key: string)
      modifies this`analysis, mapper
      ensures Run(old(View()), if key == "" then [] else [Response(key)] + EmitTaken(old(mapper.maps), key), View())
    {
      if key == "" {
        return;
      }
      ResponseSteps(View(), key);
      PostAnalysisFor(key);
    }

    /** One turn of the write thread. */
    method WriteRequest(published: bool)
      requires writes != []
      modifies this`writes, this`analysis, mapper
      ensures Run(old(View()),
                  if published then [WriteSent]
                  else [WriteFailed, ExpireFailed(old(writes[0]))] + EmitTaken(old(mapper.maps), old(writes[0])),
                  View())
    {
      ghost var s := View();
      var key := writes[0];
      writes := writes[1..];
      if published {
        assert Run(s, [], s);
        assert [] + [WriteSent] == [WriteSent];
        RunSnoc(s, [], s, WriteSent);
      } else {
        FailureSteps(s, key);
        PostAnalysisFor(key);
      }
    }
  
    /** A request that got no response before the next poll is reported. */
    method CheckLastWrite(id: string)
      requires id in last
      modifies this`last, this`analysis, mapper
      ensures View() == Checked(old(View()), id) && last == old(last)[id := ""]
    {
      IdleThreadsUpdate(last, id, "");
      var present := mapper.IsPresent(id, last[id]);
      if present {
        PostAnalysisFor(last[id]);
      }
      last := last[id := ""];
    }

    method PublishWriteReq(id: string, p: Poll)
      requires id in last && p.driverSeq != "" && !p.bad
      modifies this`last, this`writes, this`accepted, mapper
      ensures View() == Judged(old(View()), id, p)
    {
      var key := p.driverSeq + "-" + app + "-" + id;
      mapper.InsertForTracking(id, key, p);
      accepted := accepted + multiset{(id, p)};
      writes := writes + [key];
      IdleThreadsUpdate(last, id, key);
      last := last[id := key];
    }

    method JudgePoll(id: string, p: Poll)
      requires id in last
      modifies this, mapper
      ensures View() == Judged(old(View()), id, p)
    {
      if p.driverSeq == "" {
        return;
      }
      if p.bad {
        accepted := accepted + multiset{(id, p)};
        analysis := analysis + [(id, p)];
      } else {
        PublishWriteReq(id, p);
      }
    }

    /** One turn of the monitoring thread of a loop. */
    method MonitorPoll(id: string, p: Poll)
      requires id in last
      modifies this, mapper
      ensures View() == Monitored(old(View()), id, p)
      ensures Run(old(View()), CheckSteps(old(View()), id, p) + JudgeSteps(id, p), View())
    {
      MonitorRun(View(), id, p);
      CheckLastWrite(id);
      JudgePoll(id, p);
    }
  }
}
