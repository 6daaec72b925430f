/**
 What SCADA gets to see of each message and connection event: which messages go out, what they carry, what
 is stored, and what stays as it was.
 */
module SessionMessages {
  import opened Wrappers
  import opened MetricTree
  import opened SparkplugSession

  // ----- when a message brings news -----

  ghost predicate AnyRenewed(store: Entries, incoming: Entries) {
    exists k :: Renewed(store, incoming, k)
  }

  /** Some value that the message gets to is stored with the same type and another value. */
  ghost predicate AnyNewValue(store: Entries, incoming: Entries) {
    exists path :: DataReaches(store, incoming, path) && NewAt(At(store, path), At(incoming, path)).Some?
  }

  lemma {:induction false} DataHasValue(store: Entries, incoming: Entries) returns (path: Path)
    requires Distinct(incoming) && ProcessNewData(store, incoming).data != Nil
    ensures At(ProcessNewData(store, incoming).data, path).Some?
    decreases incoming
  {
    var k, m := incoming.name, incoming.metric;
    if k !in Keys(store) || CompareValue(Find(store, k).value, m).0 != ValuesDiffer {
      path := DataHasValue(store, incoming.rest);
    } else {
      var inner := PrunedHasLeafIn(Find(store, k).value, m);
      path := [k] + inner;
      assert path[1..] == inner;
    }
  }

  lemma DataReportedExactly(store: Entries, incoming: Entries)
    requires Distinct(incoming)
    ensures ProcessNewData(store, incoming).data != Nil <==> AnyNewValue(store, incoming)
  {
    if ProcessNewData(store, incoming).data != Nil {
      var path := DataHasValue(store, incoming);
      DataExactly(store, incoming, path);
    }
    forall path | DataReaches(store, incoming, path) && NewAt(At(store, path), At(incoming, path)).Some?
      ensures ProcessNewData(store, incoming).data != Nil
    {
      DataExactly(store, incoming, path);
    }
  }

  lemma {:induction false} BirthDataHasValue(store: Entries, incoming: Entries) returns (path: Path)
    requires Distinct(incoming) && ProcessNewBirthData(store, incoming).data != Nil
    ensures At(ProcessNewBirthData(store, incoming).data, path).Some?
    decreases incoming
  {
    var k, m := incoming.name, incoming.metric;
    if k !in Keys(store) {
      path := BirthDataHasValue(Insert(store, k, m), incoming.rest);
    } else {
      match CompareValue(Find(store, k).value, m).0
      case Same => path := BirthDataHasValue(store, incoming.rest);
      case TypesDiffer => path := BirthDataHasValue(Set(store, k, m), incoming.rest);
      case ValuesDiffer =>
        var inner := PrunedHasLeafIn(Find(store, k).value, m);
        path := [k] + inner;
        assert path[1..] == inner;
    }
  }

  lemma BirthReportedExactly(store: Entries, incoming: Entries)
    requires Distinct(incoming)
    ensures
      var d := ProcessNewBirthData(store, incoming);
      && (d.births != Nil <==> AnyRenewed(store, incoming))
      && (d.data != Nil <==> AnyNewValue(store, incoming))
  {
    var d := ProcessNewBirthData(store, incoming);
    if d.births != Nil {
      BirthsExactly(store, incoming, d.births.name);
      assert Renewed(store, incoming, d.births.name);
    }
    forall k | Renewed(store, incoming, k)
      ensures d.births != Nil
    {
      BirthsExactly(store, incoming, k);
    }
    if d.data != Nil {
      var path := BirthDataHasValue(store, incoming);
      BirthExactly(store, incoming, path);
    }
    forall path | DataReaches(store, incoming, path) && NewAt(At(store, path), At(incoming, path)).Some?
      ensures d.data != Nil
    {
      BirthExactly(store, incoming, path);
    }
  }

  // ----- one device in session -----

  /** `e` is `d` with more messages published and new status variables. */
  predicate Told(d: Dev, e: Dev, out: seq<Out>, published: Status, known: Status) {
    e == d.(metrics := e.metrics, trace := d.trace + out, published := published, known := known)
  }

  /** `changed` holds exactly the new values of a message. */
  ghost predicate CarriesNewValues(changed: Entries, store: Entries, incoming: Entries) {
    forall path :: At(changed, path) ==
      if DataReaches(store, incoming, path) then NewAt(At(store, path), At(incoming, path)) else None
  }

  ghost predicate DataStored(store: Entries, incoming: Entries, after: Entries) {
    forall path :: At(after, path) ==
      if DataReaches(store, incoming, path) && Meets(At(store, path), At(incoming, path)) then At(incoming, path)
      else At(store, path)
  }

  ghost predicate BirthStored(store: Entries, incoming: Entries, after: Entries) {
    forall path :: At(after, path) ==
      if path != [] && Renewed(store, incoming, path[0]) then At(incoming, path)
      else if DataReaches(store, incoming, path) && Meets(At(store, path), At(incoming, path)) then At(incoming, path)
      else At(store, path)
  }

  /** One DDATA goes out, with exactly the new values. */
  ghost predicate NewValuesTold(d: Dev, incoming: Entries, e: Dev) {
    && e.trace != [] && e.trace[|e.trace| - 1].DData?
    && Told(d, e, [e.trace[|e.trace| - 1]], Up, Up)
    && CarriesNewValues(e.trace[|e.trace| - 1].changed, d.metrics, incoming)
  }

  /** A DATA message: a device published down is born again with the new store, otherwise exactly the new
      values go out, and nothing if there are none. */
  ghost predicate DataTold(d: Dev, incoming: Entries, e: Dev) {
    && DataStored(d.metrics, incoming, e.metrics)
    && (d.published == Down ==> Told(d, e, [DBirth(e.metrics)], Up, Up))
    && (d.published != Down && AnyNewValue(d.metrics, incoming) ==> NewValuesTold(d, incoming, e))
    && (d.published != Down && !AnyNewValue(d.metrics, incoming) ==> e == d)
  }

  lemma DataSays(d: Dev, incoming: Entries)
    requires Distinct(incoming)
    ensures DataTold(d, incoming, Settle(true, OnData(d, incoming)))
  {
    var diff, e := ProcessNewData(d.metrics, incoming), Settle(true, OnData(d, incoming));
    var d1 := d.(metrics := diff.store, known := Up);
    forall path {
      DataExactly(d.metrics, incoming, path);
    }
    DataReportedExactly(d.metrics, incoming);
    DataCovers(d.metrics, incoming, []);
    if d.published == Down {
      PublishOne(d1, Birth);
    } else if diff.data != Nil {
      PublishOne(d1, Data(diff.data));
    }
  }

  /** A BIRTH: a new device is born, one published down is born again; a known one dies and is born again if
      any metric is new or retyped, else exactly the new values go out, and nothing if there are none. */
  ghost predicate BirthTold(d: Dev, isNew: bool, incoming: Entries, e: Dev) {
    var renewed := AnyRenewed(d.metrics, incoming);
    && BirthStored(d.metrics, incoming, e.metrics)
    && (d.published == Down || (isNew && renewed) ==> Told(d, e, [DBirth(e.metrics)], Up, Up))
    && (d.published != Down && !isNew && renewed ==> Told(d, e, [DDeath, DBirth(e.metrics)], Up, Up))
    && (d.published != Down && !renewed && AnyNewValue(d.metrics, incoming) ==> NewValuesTold(d, incoming, e))
    && (d.published != Down && !renewed && !AnyNewValue(d.metrics, incoming) ==> e == d)
  }

  lemma BirthSays(d: Dev, isNew: bool, incoming: Entries)
    requires Distinct(incoming) && (isNew ==> d.published == Unknown)
    ensures BirthTold(d, isNew, incoming, Settle(true, OnBirth(d, isNew, incoming)))
  {
    var diff, e := ProcessNewBirthData(d.metrics, incoming), Settle(true, OnBirth(d, isNew, incoming));
    var d1 := d.(metrics := diff.store, known := Up);
    forall path {
      BirthExactly(d.metrics, incoming, path);
    }
    BirthReportedExactly(d.metrics, incoming);
    BirthDataCovers(d.metrics, incoming, []);
    if d.published == Down {
      PublishOne(d1, Birth);
    } else if diff.births != Nil {
      if isNew {
        PublishOne(d1, Birth);
      } else {
        PublishTwo(d1, Death, Birth);
        assert d.trace + [DDeath, DBirth(e.metrics)] == d.trace + [DDeath] + [DBirth(e.metrics)];
      }
    } else if diff.data != Nil {
      PublishOne(d1, Data(diff.data));
    }
  }

  /** Exactly the value of the metric `k` has changed, to `val`. */
  ghost predicate ValueStored(store: Entries, k: string, val: Value, after: Entries)
    requires k in Keys(store) && Find(store, k).value.Leaf?
  {
    forall path :: At(after, path) ==
      if path == [k] then Some(LeafValue(Find(store, k).value.dtype, val)) else At(store, path)
  }

  /** An update that cannot be used changes nothing. */
  lemma BadUpdateSaysNothing(d: Dev, u: Update)
    requires || u.report.Unreadable? || (u.report.Good? && !u.hasValue) || u.report == Bad(0)
             || u.metric !in Keys(d.metrics) || Find(d.metrics, u.metric).value.Udt? || u.scaled.None?
    ensures Settle(true, OnUpdate(d, u)) == d
  {
  }

  predicate Usable(d: Dev, u: Update) {
    && u.metric in Keys(d.metrics) && Find(d.metrics, u.metric).value.Leaf? && u.scaled.Some?
    && ((u.report.Good? && u.hasValue) || (u.report.Bad? && u.report.code != 0))
  }

  lemma StoredValue(store: Entries, k: string, val: Value)
    requires k in Keys(store) && Find(store, k).value.Leaf?
    ensures ValueStored(store, k, val, Set(store, k, Find(store, k).value.(val := val)))
  {
    var leaf := Find(store, k).value.(val := val);
    forall path
      ensures At(Set(store, k, leaf), path) ==
              if path == [k] then Some(LeafValue(leaf.dtype, val)) else At(store, path)
    {
      UpdatedAt(store, k, leaf, path);
      if path != [] {
        assert path == [path[0]] + path[1..];
      }
    }
  }

  /** A usable good value: a device published down is born again with it; otherwise it goes out if it differs
      from the stored one. */
  lemma GoodUpdateSays(d: Dev, u: Update)
    requires Usable(d, u) && u.report.Good? && d.published != Unknown
    ensures
      var e := Settle(true, OnUpdate(d, u));
      var mine, val := Find(d.metrics, u.metric).value, u.scaled.value;
      && ValueStored(d.metrics, u.metric, val, e.metrics)
      && (d.published == Down ==> Told(d, e, [DBirth(e.metrics)], Up, Up))
      && (d.published == Up && val != mine.val ==>
            Told(d, e, [DData(Cons(u.metric, mine.(val := val), Nil))], Up, Up))
      && (d.published == Up && val == mine.val ==> e == d)
  {
    var mine, val := Find(d.metrics, u.metric).value, u.scaled.value;
    StoredValue(d.metrics, u.metric, val);
    var d1 := d.(metrics := Set(d.metrics, u.metric, mine.(val := val)), known := Up);
    if d.published == Down {
      PublishOne(d1, Birth);
    } else if val != mine.val {
      PublishOne(d1, Data(Cons(u.metric, mine.(val := val), Nil)));
    }
  }

  /** A usable bad status. A last good value that comes late is stored; it goes out if the device is
      published up and stays so. The device dies on exactly three codes. */
  lemma BadUpdateSays(d: Dev, u: Update)
    requires Usable(d, u) && u.report.Bad? && d.published != Unknown
    ensures
      var e := Settle(true, OnUpdate(d, u));
      var mine, val := Find(d.metrics, u.metric).value, u.scaled.value;
      var late := u.lastGoodUsec != 0 && u.hasValue && val != mine.val;
      var unreachable := u.report.code in {2002, 2003, 2021};
      && (if late then ValueStored(d.metrics, u.metric, val, e.metrics) else e.metrics == d.metrics)
      && (d.published == Down ==> Told(d, e, [], Down, d.known))
      && (d.published == Up && unreachable ==> Told(d, e, [DDeath], Down, Down))
      && (d.published == Up && !unreachable && late ==>
            Told(d, e, [DData(Cons(u.metric, mine.(val := val), Nil))], Up, Up))
      && (d.published == Up && !unreachable && !late ==> e == d)
  {
    var mine, val := Find(d.metrics, u.metric).value, u.scaled.value;
    StoredValue(d.metrics, u.metric, val);
    var (d2, actions) := OnUpdate(d, u);
    assert d.trace + [] == d.trace;
    if actions != [] {
      PublishOne(d2, actions[0]);
    } else {
      assert PublishAll(d2, []) == d2;
    }
  }

  // ----- the steps -----

  /** While the node is not initialised a message does the same, except that nothing is published. */
  function Said(init: bool, d: Dev, on: Dev): Dev {
    if init then on else on.(trace := d.trace, published := d.published)
  }

  lemma {:induction false} PublishKeepsRest(d: Dev, actions: seq<Action>)
    ensures PublishAll(d, actions) ==
            d.(trace := PublishAll(d, actions).trace, published := PublishAll(d, actions).published)
  {
    if actions == [] {
    } else {
      PublishKeepsRest(d, actions[..|actions| - 1]);
    }
  }

  lemma SettleSays(init: bool, d: Dev, outcome: (Dev, seq<Action>))
    requires outcome.0.trace == d.trace && outcome.0.published == d.published
    ensures Settle(init, outcome) == Said(init, d, Settle(true, outcome))
  {
    PublishKeepsRest(outcome.0, outcome.1);
  }

  /** Apart from the device `name` nothing has changed. */
  predicate OthersSame(s: State, t: State, name: string) {
    && t.init == s.init && t.devs.Keys == s.devs.Keys + {name}
    && forall n :: n in s.devs && n != name ==> t.devs[n] == s.devs[n]
  }

  /** A BIRTH of a sub-device; without names or metrics it is ignored. */
  lemma BirthStepSays(s: State, app: string, sub: string, incoming: Entries) returns (on: Dev)
    requires Distinct(incoming)
    ensures
      var name, t := app + "-" + sub, Step(s, BirthMsg(app, sub, incoming));
      if app == "" || sub == "" || incoming == Nil then t == s
      else
        var isNew := name !in s.devs;
        var d := if isNew then Dev(Some(app), sub, Nil, Unknown, Unknown, []) else s.devs[name];
        OthersSame(s, t, name) && BirthTold(d, isNew, incoming, on) && t.devs[name] == Said(s.init, d, on)
  {
    var name := DevName(app, sub);
    var isNew := name !in s.devs;
    var d := if isNew then NewDev(app, sub) else s.devs[name];
    on := Settle(true, OnBirth(d, isNew, incoming));
    BirthSays(d, isNew, incoming);
    SettleSays(s.init, d, OnBirth(d, isNew, incoming));
  }

  /** A DATA message of a sub-device; without names or metrics, or for an unknown device, it is ignored. */
  lemma DataStepSays(s: State, app: string, sub: string, incoming: Entries) returns (on: Dev)
    requires Distinct(incoming)
    ensures
      var name, t := app + "-" + sub, Step(s, DataMsg(app, sub, incoming));
      if app == "" || sub == "" || incoming == Nil || name !in s.devs then t == s
      else OthersSame(s, t, name) && DataTold(s.devs[name], incoming, on)
           && t.devs[name] == Said(s.init, s.devs[name], on)
  {
    var name := DevName(app, sub);
    if name in s.devs {
      on := Settle(true, OnData(s.devs[name], incoming));
      DataSays(s.devs[name], incoming);
      SettleSays(s.init, s.devs[name], OnData(s.devs[name], incoming));
    } else {
      on := NewDev(app, sub);
    }
  }

  /** An update reaches the device that it names; what it does there is said by the lemmas on updates, and a
      device with no published status ignores it. */
  lemma UpdateStepSays(s: State, device: string, sub: string, u: Update)
    ensures
      var name, t := device + "-" + sub, Step(s, UpdateMsg(device, sub, u));
      if device == "" || sub == "" || name !in s.devs then t == s
      else OthersSame(s, t, name)
           && t.devs[name] == Said(s.init, s.devs[name], Settle(true, OnUpdate(s.devs[name], u)))
           && (s.devs[name].published == Unknown ==> t.devs[name] == s.devs[name])
  {
    var name := DevName(device, sub);
    if name in s.devs {
      SettleSays(s.init, s.devs[name], OnUpdate(s.devs[name], u));
      assert PublishAll(s.devs[name], []) == s.devs[name];
    }
  }

  /** A DEATH hits exactly the devices that the app created; each gets a DDEATH. */
  lemma DeathStepSays(s: State, app: string, n: string)
    requires n in s.devs
    ensures
      var t := Step(s, DeathMsg(app));
      && t.init == s.init && t.devs.Keys == s.devs.Keys
      && t.devs[n] == if app != "" && s.devs[n].app == Some(app)
                      then Said(s.init, s.devs[n], s.devs[n].(trace := s.devs[n].trace + [DDeath], published := Down,
                                                              known := Down))
                      else s.devs[n]
  {
    PublishOne(s.devs[n].(known := Down), Death);
  }

  /** A node birth forgets the old traces; every device that is not known to be down is born. */
  lemma NodeBirthSays(s: State, n: string)
    requires n in s.devs
    ensures
      var t := Step(s, NodeBirth);
      && t.init && t.devs.Keys == s.devs.Keys
      && t.devs[n] == if s.devs[n].known == Down then s.devs[n].(trace := [])
                      else s.devs[n].(trace := [DBirth(s.devs[n].metrics)], published := Up)
  {
    assert [] + [DBirth(s.devs[n].metrics)] == [DBirth(s.devs[n].metrics)];
  }

  /** When the bus is back, every device that is neither published up nor known to be down is born. */
  lemma BusEstablishedSays(s: State, n: string)
    requires n in s.devs
    ensures
      var d, t := s.devs[n], Step(s, BusEstablished);
      && t.init == s.init && t.devs.Keys == s.devs.Keys
      && t.devs[n] == if s.init && d.published != Up && d.known != Down
                      then d.(trace := d.trace + [DBirth(d.metrics)], published := Up) else d
  {
  }

  /** When the bus is lost, every device that is reached gets a DDEATH; what it was known to be stays. */
  lemma BusLostSays(s: State, reached: set<string>, n: string)
    requires n in s.devs
    ensures
      var d, t := s.devs[n], Step(s, BusLost(reached));
      && t.init == s.init && t.devs.Keys == s.devs.Keys
      && t.devs[n] == if s.init && n in reached then d.(trace := d.trace + [DDeath], published := Down) else d
  {
  }

  /** A disconnect, or a new template, ends the session; no device changes until the next node birth. */
  lemma DisconnectSays(s: State)
    ensures Step(s, Disconnected) == State(false, s.devs) && Step(s, NewTemplate) == State(false, s.devs)
  {
  }

  /** After a bus loss that reached it and the return of the bus, a device not known to be down is born again
      with what is stored, and the host sees it. */
  lemma BackAfterBusLoss(s: State, reached: set<string>, n: string, path: Path)
    requires Inv(s) && s.init && n in s.devs && n in reached && s.devs[n].known != Down
    ensures
      var t := Step(Step(s, BusLost(reached)), BusEstablished);
      && n in t.devs && t.devs[n].published == Up
      && t.devs[n].trace == s.devs[n].trace + [DDeath, DBirth(s.devs[n].metrics)]
      && HostSees(t.devs[n].trace, path) == At(s.devs[n].metrics, path)
  {
    var lost := Step(s, BusLost(reached));
    BusLostSays(s, reached, n);
    BusEstablishedSays(lost, n);
    var trace, birth := s.devs[n].trace, DBirth(s.devs[n].metrics);
    assert trace + [DDeath] + [birth] == trace + [DDeath, birth];
    HostSeesAppend(trace + [DDeath], birth, path);
  }

  // ----- the host follows -----

  /** In an initialised node, after a DATA message, the host sees every value that the message could set. */
  lemma HostFollowsData(s: State, app: string, sub: string, incoming: Entries, path: Path)
    requires Inv(s) && s.init && Distinct(incoming) && app != "" && sub != "" && incoming != Nil
    requires DevName(app, sub) in s.devs
    requires
      var store := s.devs[DevName(app, sub)].metrics;
      DataReaches(store, incoming, path) && Meets(At(store, path), At(incoming, path))
    ensures
      var t, name := Step(s, DataMsg(app, sub, incoming)), app + "-" + sub;
      name in t.devs && t.devs[name].published == Up && HostSees(t.devs[name].trace, path) == At(incoming, path)
  {
    var on := DataStepSays(s, app, sub, incoming);
    StepKeepsInv(s, DataMsg(app, sub, incoming));
    assert DevOk(s.init, DevName(app, sub), s.devs[DevName(app, sub)]);
    var t := Step(s, DataMsg(app, sub, incoming));
    assert DevOk(t.init, DevName(app, sub), t.devs[DevName(app, sub)]);
  }

  /** And after a BIRTH also every value of a new or retyped metric. */
  lemma HostFollowsBirth(s: State, app: string, sub: string, incoming: Entries, path: Path)
    requires Inv(s) && s.init && Distinct(incoming) && app != "" && sub != "" && incoming != Nil && path != []
    requires
      var store := if DevName(app, sub) in s.devs then s.devs[DevName(app, sub)].metrics else Nil;
      || Renewed(store, incoming, path[0])
      || (DataReaches(store, incoming, path) && Meets(At(store, path), At(incoming, path)))
    ensures
      var t, name := Step(s, BirthMsg(app, sub, incoming)), app + "-" + sub;
      name in t.devs && t.devs[name].published == Up && HostSees(t.devs[name].trace, path) == At(incoming, path)
  {
    var on := BirthStepSays(s, app, sub, incoming);
    StepKeepsInv(s, BirthMsg(app, sub, incoming));
    var t, name := Step(s, BirthMsg(app, sub, incoming)), DevName(app, sub);
    if name in s.devs {
      assert DevOk(s.init, name, s.devs[name]);
    } else {
      assert Renewed(Nil, incoming, path[0]);
    }
    assert DevOk(t.init, name, t.devs[name]);
  }
}
