/**
 The Sparkplug session of the bridge: two status variables and a metric store per device, driven by
 vendor-app and device messages, bus loss and return, and node rebirth. "Process one message and
 publish its action vector" is one step, and so is "NBIRTH, all DBIRTHs, init done".
 A device's `trace` is what was published for it since the last NBIRTH.
 */
module SparkplugSession {
  import opened Wrappers
  import opened MetricTree

  datatype Status = Unknown | Up | Down

  datatype Out = DBirth(metrics: Entries) | DData(changed: Entries) | DDeath

  datatype Action = Birth | Death | Data(changed: Entries)

  /** `published` is the last status told to SCADA, `known` the last one heard from the device.
      `app` is the vendor app that created the device, None for a configured Modbus device. */
  datatype Dev = Dev(
    app: Option<string>,
    sub: string,
    metrics: Entries,
    published: Status,
    known: Status,
    trace: seq<Out>
  )

  datatype State = State(init: bool, devs: map<string, Dev>)

  /** A parsed status message of a Modbus device; `scaled` is None when no usable value came with it. */
  datatype Report = Good | Bad(code: nat) | Unreadable
  datatype Update = Update(metric: string, report: Report, hasValue: bool, lastGoodUsec: nat, scaled: Option<Value>)

  datatype Event =
    | BirthMsg(app: string, sub: string, metrics: Entries)
    | DataMsg(app: string, sub: string, metrics: Entries)
    | DeathMsg(app: string)
    | UpdateMsg(device: string, sub: string, update: Update)
    | BusLost(reached: set<string>)
    | BusEstablished
    | NodeBirth
    | Disconnected
    | NewTemplate

  // ----- a message against the metric store -----

  /** The store after a BIRTH, the metrics that need a DBIRTH, and the changed values. */
  datatype Diff = Diff(store: Entries, births: Entries, data: Entries)

  function ProcessNewBirthData(store: Entries, incoming: Entries): Diff
    decreases incoming
  {
    match incoming
    case Nil => Diff(store, Nil, Nil)
    case Cons(k, m, rest) =>
      match Find(store, k)
      case None =>
        var d := ProcessNewBirthData(Insert(store, k, m), rest);
        d.(births := Cons(k, m, d.births))
      case Some(mine) =>
        var (verdict, pruned) := CompareValue(mine, m);
        match verdict
        case Same => ProcessNewBirthData(store, rest)
        case ValuesDiffer =>
          var d := ProcessNewBirthData(Set(store, k, AssignNewValue(mine, pruned)), rest);
          d.(data := Cons(k, pruned, d.data))
        case TypesDiffer =>
          var d := ProcessNewBirthData(Set(store, k, m), rest);
          d.(births := Cons(k, m, d.births))
  }

  /** A DATA message changes values only; unknown metrics and other types are ignored. */
  function ProcessNewData(store: Entries, incoming: Entries): Diff
    decreases incoming
  {
    match incoming
    case Nil => Diff(store, Nil, Nil)
    case Cons(k, m, rest) =>
      match Find(store, k)
      case None => ProcessNewData(store, rest)
      case Some(mine) =>
        var (verdict, pruned) := CompareValue(mine, m);
        if verdict == ValuesDiffer then
          var d := ProcessNewData(Set(store, k, AssignNewValue(mine, pruned)), rest);
          d.(data := Cons(k, pruned, d.data))
        else ProcessNewData(store, rest)
  }

  function OnBirth(d: Dev, isNew: bool, incoming: Entries): (Dev, seq<Action>) {
    var diff := ProcessNewBirthData(d.metrics, incoming);
    var d1 := d.(metrics := diff.store);
    if d.published == Down then (d1.(known := Up), [Birth])
    else if diff.births != Nil then (d1.(known := Up), if isNew then [Birth] else [Death, Birth])
    else if diff.data != Nil then (d1.(known := Up), [Data(diff.data)])
    else (d1, [])
  }

  function OnData(d: Dev, incoming: Entries): (Dev, seq<Action>) {
    var diff := ProcessNewData(d.metrics, incoming);
    var d1 := d.(metrics := diff.store);
    if d.published == Down then (d1.(known := Up), [Birth])
    else if diff.data != Nil then (d1.(known := Up), [Data(diff.data)])
    else (d1, [])
  }

  function OnDeath(d: Dev): (Dev, seq<Action>) {
    (d.(known := Down), [Death])
  }

  /** Socket, connect and serial-port failures mean that the device is unreachable. */
  predicate IsDeathCode(code: nat) {
    code == 2002 || code == 2003 || code == 2021
  }

  /** The message parses, its status is consistent and it names a plain metric of the device. */
  predicate Accepts(d: Dev, u: Update) {
    && (match u.report
        case Good => u.hasValue
        case Bad(code) => code != 0
        case Unreadable => false)
    && u.metric in Keys(d.metrics) && Find(d.metrics, u.metric).value.Leaf? && u.scaled.Some?
  }

  function OnUpdate(d: Dev, u: Update): (Dev, seq<Action>) {
    if !Accepts(d, u) then (d, [])
    else
      var mine := Find(d.metrics, u.metric).value;
      var updated := mine.(val := u.scaled.value);
      var d1 := d.(metrics := Set(d.metrics, u.metric, updated));
      var data := [Data(Cons(u.metric, updated, Nil))];
      var differs := mine.val != u.scaled.value;
      var lateValue := u.lastGoodUsec != 0 && differs && u.hasValue;
      match d.published
      case Unknown => (d, [])
      case Down =>
        if u.report.Good? then (d1.(known := Up), [Birth])
        else (if lateValue then d1 else d, [])
      case Up =>
        if u.report.Good? then (if differs then (d1.(known := Up), data) else (d, []))
        else if IsDeathCode(u.report.code) then ((if lateValue then d1 else d).(known := Down), [Death])
        else if lateValue then (d1.(known := Up), data)
        else (d, [])
  }

  // ----- publishing -----

  /** Device part of DBIRTH: nothing for a device known to be down or, outside a node birth, already up. */
  function PublishBirth(d: Dev, nodeBirth: bool): Dev {
    if d.known == Down || (!nodeBirth && d.published == Up) then d
    else d.(trace := d.trace + [DBirth(d.metrics)], published := Up)
  }

  function PublishDeath(d: Dev): Dev {
    d.(trace := d.trace + [DDeath], published := Down)
  }

  function Publish(d: Dev, a: Action): Dev {
    match a
    case Birth => PublishBirth(d, false)
    case Death => PublishDeath(d)
    case Data(changed) =>
      if changed == Nil then d else d.(trace := d.trace + [DData(changed)], published := Up)
  }

  function PublishAll(d: Dev, actions: seq<Action>): Dev {
    if actions == [] then d else Publish(PublishAll(d, actions[..|actions| - 1]), actions[|actions| - 1])
  }

  /** Actions are dropped while the node is not initialised; the device state has changed all the same. */
  function Settle(init: bool, outcome: (Dev, seq<Action>)): Dev {
    if init then PublishAll(outcome.0, outcome.1) else outcome.0
  }

  // ----- the steps -----

  function DevName(app: string, sub: string): string {
    app + "-" + sub
  }

  function NewDev(app: string, sub: string): Dev {
    Dev(Some(app), sub, Nil, Unknown, Unknown, [])
  }

  function NodeBorn(d: Dev): Dev {
    PublishBirth(d.(trace := []), true)
  }

  function Step(s: State, ev: Event): State {
    match ev
    case BirthMsg(app, sub, metrics) =>
      if app == "" || sub == "" || metrics == Nil then s
      else
        var name := DevName(app, sub);
        var isNew := name !in s.devs;
        var d := if isNew then NewDev(app, sub) else s.devs[name];
        s.(devs := s.devs[name := Settle(s.init, OnBirth(d, isNew, metrics))])
    case DataMsg(app, sub, metrics) =>
      var name := DevName(app, sub);
      if app == "" || sub == "" || metrics == Nil || name !in s.devs then s
      else s.(devs := s.devs[name := Settle(s.init, OnData(s.devs[name], metrics))])
    case DeathMsg(app) =>
      s.(devs := map n | n in s.devs ::
           if app != "" && s.devs[n].app == Some(app) then Settle(s.init, OnDeath(s.devs[n])) else s.devs[n])
    case UpdateMsg(device, sub, update) =>
      var name := DevName(device, sub);
      if device == "" || sub == "" || name !in s.devs then s
      else s.(devs := s.devs[name := Settle(s.init, OnUpdate(s.devs[name], update))])
    case BusLost(reached) =>
      s.(devs := map n | n in s.devs :: if s.init && n in reached then PublishDeath(s.devs[n]) else s.devs[n])
    case BusEstablished =>
      s.(devs := map n | n in s.devs :: if s.init then PublishBirth(s.devs[n], false) else s.devs[n])
    case NodeBirth =>
      State(true, map n | n in s.devs :: NodeBorn(s.devs[n]))
    case Disconnected => s.(init := false)
    case NewTemplate => s.(init := false)
  }

  function Run(s: State, events: seq<Event>): State {
    if events == [] then s else Step(Run(s, events[..|events| - 1]), events[|events| - 1])
  }

  // ----- what SCADA sees -----

  /** The device's last certificate is a DBIRTH. */
  function Alive(trace: seq<Out>): bool {
    if trace == [] then false
    else
      match trace[|trace| - 1]
      case DBirth(_) => true
      case DDeath => false
      case DData(_) => Alive(trace[..|trace| - 1])
  }

  /** No DDATA without a live DBIRTH and no second DBIRTH without a DDEATH: the traces
      DDEATH* (DBIRTH DDATA* DDEATH+)* (DBIRTH DDATA*)?. */
  ghost predicate Legal(trace: seq<Out>) {
    forall i :: 0 <= i < |trace| ==>
      && (trace[i].DData? ==> Alive(trace[..i]))
      && (trace[i].DBirth? ==> !Alive(trace[..i]))
  }

  /** The host's value at a path after one more message: a DBIRTH replaces everything, a DDATA overlays
      its own leaves. */
  function SeenAfter(o: Out, before: Option<LeafValue>, path: Path): Option<LeafValue> {
    match o
    case DBirth(metrics) => At(metrics, path)
    case DData(changed) => Over(At(changed, path), before)
    case DDeath => None
  }

  function HostSees(trace: seq<Out>, path: Path): Option<LeafValue> {
    if trace == [] then None
    else SeenAfter(trace[|trace| - 1], HostSees(trace[..|trace| - 1], path), path)
  }

  ghost predicate HostAgrees(d: Dev) {
    forall path :: HostSees(d.trace, path) == At(d.metrics, path)
  }

  /** While the node is initialised a device is published up exactly when its last certificate is a
      DBIRTH, and then the host holds exactly the stored values. */
  ghost predicate InSession(d: Dev) {
    && d.published != Unknown
    && (d.published == Up <==> Alive(d.trace))
    && (d.published == Up ==> HostAgrees(d))
  }

  ghost predicate DevOk(init: bool, name: string, d: Dev) {
    && Legal(d.trace)
    && Distinct(d.metrics)
    && (d.known == Down ==> d.published == Down)
    && (d.app.Some? ==> d.app.value != "" && d.sub != "" && name == DevName(d.app.value, d.sub))
    && (init ==> InSession(d))
  }

  ghost predicate Inv(s: State) {
    forall n :: n in s.devs ==> DevOk(s.init, n, s.devs[n])
  }

  /** Metric maps have distinct keys. */
  predicate WellFormed(ev: Event) {
    match ev
    case BirthMsg(_, _, metrics) => Distinct(metrics)
    case DataMsg(_, _, metrics) => Distinct(metrics)
    case _ => true
  }

  predicate ReportsDeath(d: Dev, u: Update) {
    d.published == Up && Accepts(d, u) && u.report.Bad? && IsDeathCode(u.report.code)
  }

  /** Deaths are processed only while the node is initialised, or for devices already published down. */
  predicate Harmless(s: State, ev: Event) {
    s.init ||
    match ev
    case DeathMsg(app) =>
      app == "" || forall n :: n in s.devs && s.devs[n].app == Some(app) ==> s.devs[n].published == Down
    case UpdateMsg(device, sub, u) =>
      device == "" || sub == "" || DevName(device, sub) !in s.devs || !ReportsDeath(s.devs[DevName(device, sub)], u)
    case _ => true
  }

  // ----- traces -----

  lemma AliveAppend(trace: seq<Out>, o: Out)
    ensures Alive(trace + [o]) == (o.DBirth? || (o.DData? && Alive(trace)))
  {
    assert (trace + [o])[..|trace|] == trace;
  }

  lemma LegalAppend(trace: seq<Out>, o: Out)
    requires Legal(trace)
    requires o.DData? ==> Alive(trace)
    requires o.DBirth? ==> !Alive(trace)
    ensures Legal(trace + [o])
  {
    var all := trace + [o];
    forall i | 0 <= i < |all|
      ensures (all[i].DData? ==> Alive(all[..i])) && (all[i].DBirth? ==> !Alive(all[..i]))
    {
      assert all[..i] == trace[..i];
    }
  }

  lemma HostSeesAppend(trace: seq<Out>, o: Out, path: Path)
    ensures HostSees(trace + [o], path) == SeenAfter(o, HostSees(trace, path), path)
  {
    assert (trace + [o])[..|trace|] == trace;
  }

  /** DDEATH* (DBIRTH DDATA* DDEATH+)*, read from the end. */
  predicate DeadTrace(trace: seq<Out>) {
    trace == [] || (trace[|trace| - 1].DDeath?
                    && (DeadTrace(trace[..|trace| - 1]) || LiveTrace(trace[..|trace| - 1])))
  }

  /** The same, followed by DBIRTH DDATA*. */
  predicate LiveTrace(trace: seq<Out>) {
    trace != []
    && var prefix, last := trace[..|trace| - 1], trace[|trace| - 1];
       (last.DBirth? && DeadTrace(prefix)) || (last.DData? && LiveTrace(prefix))
  }

  lemma {:induction false} LegalIsGrammar(trace: seq<Out>)
    ensures Legal(trace) <==> DeadTrace(trace) || LiveTrace(trace)
    ensures Legal(trace) ==> (LiveTrace(trace) <==> Alive(trace))
  {
    if trace == [] {
    } else {
      var prefix, last := trace[..|trace| - 1], trace[|trace| - 1];
      assert trace == prefix + [last];
      LegalIsGrammar(prefix);
      if Legal(trace) {
        forall i | 0 <= i < |prefix|
          ensures (prefix[i].DData? ==> Alive(prefix[..i])) && (prefix[i].DBirth? ==> !Alive(prefix[..i]))
        {
          assert prefix[..i] == trace[..i];
          assert prefix[i] == trace[i];
        }
      } else if Legal(prefix) && (last.DData? ==> Alive(prefix)) && (last.DBirth? ==> !Alive(prefix)) {
        LegalAppend(prefix, last);
      }
    }
  }

  // ----- the store keeps up with what is published -----

  /** When only values changed, the reported data laid over the old store gives the new one. */
  lemma {:induction false} BirthDataCovers(store: Entries, incoming: Entries, path: Path)
    requires Distinct(incoming)
    ensures
      var d := ProcessNewBirthData(store, incoming);
      && Keys(d.data) <= Keys(incoming)
      && (d.births == Nil ==> At(d.store, path) == Over(At(d.data, path), At(store, path)))
      && (d.births == Nil && d.data == Nil ==> d.store == store)
    decreases incoming
  {
    if incoming.Nil? {
    } else {
      var k, m := incoming.name, incoming.metric;
      if k !in Keys(store) {
        BirthDataCovers(Insert(store, k, m), incoming.rest, path);
      } else {
        var mine := Find(store, k).value;
        var (verdict, pruned) := CompareValue(mine, m);
        match verdict
        case Same =>
          BirthDataCovers(store, incoming.rest, path);
        case TypesDiffer =>
          BirthDataCovers(Set(store, k, m), incoming.rest, path);
        case ValuesDiffer =>
          var updated := AssignNewValue(mine, pruned);
          BirthDataCovers(Set(store, k, updated), incoming.rest, path);
          AssignedAt(store, k, m, path);
      }
    }
  }

  /** Replacing one stored metric by its patched form, seen at a path. */
  lemma AssignedAt(store: Entries, k: string, m: Metric, path: Path)
    requires k in Keys(store) && DistinctIn(m)
    requires CompareValue(Find(store, k).value, m).0 == ValuesDiffer
    ensures
      var mine := Find(store, k).value;
      var pruned := CompareValue(mine, m).1;
      At(Set(store, k, AssignNewValue(mine, pruned)), path) ==
      Over(At(Cons(k, pruned, Nil), path), At(store, path))
  {
    var mine := Find(store, k).value;
    var pruned := CompareValue(mine, m).1;
    PrunedFitsIn(mine, m);
    if path != [] {
      FindSet(store, k, AssignNewValue(mine, pruned), path[0]);
      AssignAtIn(mine, pruned, path[1..]);
    }
  }

  lemma {:induction false} DataCovers(store: Entries, incoming: Entries, path: Path)
    requires Distinct(incoming)
    ensures
      var d := ProcessNewData(store, incoming);
      && Keys(d.data) <= Keys(incoming)
      && At(d.store, path) == Over(At(d.data, path), At(store, path))
      && (d.data == Nil ==> d.store == store)
    decreases incoming
  {
    if incoming.Nil? {
    } else {
      var k, m := incoming.name, incoming.metric;
      if k !in Keys(store) {
        DataCovers(store, incoming.rest, path);
      } else {
        var mine := Find(store, k).value;
        var (verdict, pruned) := CompareValue(mine, m);
        if verdict == ValuesDiffer {
          DataCovers(Set(store, k, AssignNewValue(mine, pruned)), incoming.rest, path);
          AssignedAt(store, k, m, path);
        } else {
          DataCovers(store, incoming.rest, path);
        }
      }
    }
  }

  // ----- a message against the store, in full -----

  /** A DATA message gets to this path. */
  predicate DataReaches(store: Entries, incoming: Entries, path: Path) {
    path != [] && path[0] in Keys(store) && path[0] in Keys(incoming)
    && WalkedIn(Find(store, path[0]).value, Find(incoming, path[0]).value, path[1..])
  }

  /** A DATA message reports exactly the new values that it gets to, and stores exactly these. Metrics that
      are unknown or have another type change nothing. */
  lemma {:induction false} DataExactly(store: Entries, incoming: Entries, path: Path)
    requires Distinct(incoming)
    ensures
      var d := ProcessNewData(store, incoming);
      var fresher := if DataReaches(store, incoming, path) then NewAt(At(store, path), At(incoming, path)) else None;
      At(d.data, path) == fresher && At(d.store, path) == Over(fresher, At(store, path))
    decreases incoming
  {
    DataCovers(store, incoming, path);
    if incoming.Nil? || path == [] {
    } else {
      var k, m := incoming.name, incoming.metric;
      if k !in Keys(store) {
        DataExactly(store, incoming.rest, path);
      } else {
        var mine := Find(store, k).value;
        var (verdict, pruned) := CompareValue(mine, m);
        PrunedExactlyIn(mine, m, path[1..]);
        if verdict == ValuesDiffer {
          var updated := Set(store, k, AssignNewValue(mine, pruned));
          DataCovers(updated, incoming.rest, path);
          FindSet(store, k, AssignNewValue(mine, pruned), path[0]);
          DataExactly(updated, incoming.rest, path);
        } else {
          DataCovers(store, incoming.rest, path);
          DataExactly(store, incoming.rest, path);
        }
      }
    }
  }

  /** When its metrics are known with the same types, all its values end up in the store. */
  lemma FittingDataStored(store: Entries, incoming: Entries, path: Path)
    requires Distinct(incoming) && Fits(store, incoming)
    ensures
      var d := ProcessNewData(store, incoming);
      && At(d.store, path) == Over(At(incoming, path), At(store, path))
      && At(d.data, path) == Changed(At(store, path), At(incoming, path))
  {
    DataExactly(store, incoming, path);
    if At(incoming, path).Some? {
      FitsWalks(store, incoming, path);
    }
  }

  /** A BIRTH brings this metric for the first time, or with another type. */
  predicate Renewed(store: Entries, incoming: Entries, k: string) {
    k in Keys(incoming) && (k in Keys(store) ==> Retyped(Find(store, k).value, Find(incoming, k).value))
  }

  /** Exactly the new and the retyped metrics need a DBIRTH. */
  lemma {:induction false} BirthsExactly(store: Entries, incoming: Entries, k: string)
    requires Distinct(incoming)
    ensures Find(ProcessNewBirthData(store, incoming).births, k) ==
            if Renewed(store, incoming, k) then Find(incoming, k) else None
    decreases incoming
  {
    if incoming.Nil? {
    } else {
      var name, m := incoming.name, incoming.metric;
      if name !in Keys(store) {
        FindInsert(store, name, m, k);
        BirthsExactly(Insert(store, name, m), incoming.rest, k);
      } else {
        var mine := Find(store, name).value;
        var (verdict, pruned) := CompareValue(mine, m);
        VerdictExactly(mine, m);
        match verdict
        case Same => BirthsExactly(store, incoming.rest, k);
        case TypesDiffer =>
          FindSet(store, name, m, k);
          BirthsExactly(Set(store, name, m), incoming.rest, k);
        case ValuesDiffer =>
          FindSet(store, name, AssignNewValue(mine, pruned), k);
          BirthsExactly(Set(store, name, AssignNewValue(mine, pruned)), incoming.rest, k);
      }
    }
  }

  /** What a BIRTH reports as changed and stores: the new and retyped metrics as they come, of the others
      exactly the new values. */
  ghost predicate BirthExact(store: Entries, incoming: Entries, path: Path) {
    var d := ProcessNewBirthData(store, incoming);
    var fresher := if DataReaches(store, incoming, path) then NewAt(At(store, path), At(incoming, path)) else None;
    && At(d.data, path) == fresher
    && At(d.store, path) == if path != [] && Renewed(store, incoming, path[0]) then At(incoming, path)
                            else Over(fresher, At(store, path))
  }

  lemma {:induction false} BirthKeys(store: Entries, incoming: Entries)
    ensures Keys(ProcessNewBirthData(store, incoming).data) <= Keys(incoming)
    decreases incoming
  {
    if incoming.Nil? {
    } else {
      var k, m := incoming.name, incoming.metric;
      if k !in Keys(store) {
        BirthKeys(Insert(store, k, m), incoming.rest);
      } else {
        BirthKeys(store, incoming.rest);
        BirthKeys(Set(store, k, m), incoming.rest);
        BirthKeys(Set(store, k, AssignNewValue(Find(store, k).value, CompareValue(Find(store, k).value, m).1)),
                  incoming.rest);
      }
    }
  }

  lemma {:induction false} BirthExactly(store: Entries, incoming: Entries, path: Path)
    requires Distinct(incoming)
    ensures BirthExact(store, incoming, path)
    decreases incoming
  {
    if incoming.Nil? || path == [] {
      BirthOfNothing(store, incoming, path);
    } else {
      var k, m := incoming.name, incoming.metric;
      if k !in Keys(store) {
        FindInsert(store, k, m, path[0]);
        BirthKeys(Insert(store, k, m), incoming.rest);
        BirthExactly(Insert(store, k, m), incoming.rest, path);
      } else {
        var mine := Find(store, k).value;
        var (verdict, pruned) := CompareValue(mine, m);
        VerdictExactly(mine, m);
        PrunedExactlyIn(mine, m, path[1..]);
        match verdict
        case Same =>
          BirthKeys(store, incoming.rest);
          BirthExactly(store, incoming.rest, path);
        case TypesDiffer =>
          FindSet(store, k, m, path[0]);
          BirthKeys(Set(store, k, m), incoming.rest);
          BirthExactly(Set(store, k, m), incoming.rest, path);
        case ValuesDiffer =>
          var updated := AssignNewValue(mine, pruned);
          BirthKeys(Set(store, k, updated), incoming.rest);
          BirthExactly(Set(store, k, updated), incoming.rest, path);
          BirthOfNewValues(store, incoming, path);
      }
    }
  }

  /** A first metric that brings new values only. */
  lemma BirthOfNewValues(store: Entries, incoming: Entries, path: Path)
    requires Distinct(incoming) && incoming.Cons? && path != [] && incoming.name in Keys(store)
    requires CompareValue(Find(store, incoming.name).value, incoming.metric).0 == ValuesDiffer
    requires
      var k, mine := incoming.name, Find(store, incoming.name).value;
      var updated := Set(store, k, AssignNewValue(mine, CompareValue(mine, incoming.metric).1));
      && Keys(ProcessNewBirthData(updated, incoming.rest).data) <= Keys(incoming.rest)
      && BirthExact(updated, incoming.rest, path)
    ensures BirthExact(store, incoming, path)
  {
    var k, m, mine := incoming.name, incoming.metric, Find(store, incoming.name).value;
    var pruned := CompareValue(mine, m).1;
    FindSet(store, k, AssignNewValue(mine, pruned), path[0]);
    VerdictExactly(mine, m);
    PrunedExactlyIn(mine, m, path[1..]);
    AssignedAt(store, k, m, path);
  }

  lemma {:induction false} BirthOfNothing(store: Entries, incoming: Entries, path: Path)
    requires incoming.Nil? || path == []
    ensures BirthExact(store, incoming, path)
  {
  }

  lemma {:induction false} StoreStaysDistinct(store: Entries, incoming: Entries)
    requires Distinct(store) && Distinct(incoming)
    ensures Distinct(ProcessNewBirthData(store, incoming).store)
    ensures Distinct(ProcessNewData(store, incoming).store)
    decreases incoming
  {
    if incoming.Nil? {
    } else {
      var k, m := incoming.name, incoming.metric;
      StoreStaysDistinct(store, incoming.rest);
      if k !in Keys(store) {
        InsertDistinct(store, k, m);
        StoreStaysDistinct(Insert(store, k, m), incoming.rest);
      } else {
        var mine := Find(store, k).value;
        var updated := AssignNewValue(mine, CompareValue(mine, m).1);
        FindDistinct(store, k);
        AssignDistinctIn(mine, CompareValue(mine, m).1);
        SetDistinct(store, k, updated);
        SetDistinct(store, k, m);
        StoreStaysDistinct(Set(store, k, updated), incoming.rest);
        StoreStaysDistinct(Set(store, k, m), incoming.rest);
      }
    }
  }

  // ----- one device, one message -----

  lemma BirthLands(d: Dev)
    requires Legal(d.trace) && !Alive(d.trace)
    ensures
      var e := d.(trace := d.trace + [DBirth(d.metrics)], published := Up);
      Legal(e.trace) && InSession(e)
  {
    LegalAppend(d.trace, DBirth(d.metrics));
    AliveAppend(d.trace, DBirth(d.metrics));
    forall path {
      HostSeesAppend(d.trace, DBirth(d.metrics), path);
    }
  }

  lemma DeathLands(d: Dev)
    requires Legal(d.trace)
    ensures Legal(PublishDeath(d).trace) && InSession(PublishDeath(d))
  {
    LegalAppend(d.trace, DDeath);
    AliveAppend(d.trace, DDeath);
  }

  /** `changed` lays over the stored values `before` to give the new ones. */
  lemma DataLands(d: Dev, before: Entries, changed: Entries)
    requires Legal(d.trace) && Alive(d.trace)
    requires forall path :: HostSees(d.trace, path) == At(before, path)
    requires forall path :: At(d.metrics, path) == Over(At(changed, path), At(before, path))
    ensures
      var e := d.(trace := d.trace + [DData(changed)], published := Up);
      Legal(e.trace) && InSession(e)
  {
    LegalAppend(d.trace, DData(changed));
    AliveAppend(d.trace, DData(changed));
    forall path {
      HostSeesAppend(d.trace, DData(changed), path);
    }
  }

  lemma PublishOne(d: Dev, a: Action)
    ensures PublishAll(d, [a]) == Publish(d, a)
  {
    assert [a][..0] == [];
    assert PublishAll(d, []) == d;
  }

  lemma PublishTwo(d: Dev, a: Action, b: Action)
    ensures PublishAll(d, [a, b]) == Publish(Publish(d, a), b)
  {
    assert [a, b][..1] == [a];
    PublishOne(d, a);
  }

  lemma BirthKeepsDevOk(init: bool, name: string, d: Dev, incoming: Entries)
    requires DevOk(init, name, d) && Distinct(incoming)
    ensures DevOk(init, name, Settle(init, OnBirth(d, false, incoming)))
  {
    var diff := ProcessNewBirthData(d.metrics, incoming);
    StoreStaysDistinct(d.metrics, incoming);
    forall path {
      BirthDataCovers(d.metrics, incoming, path);
    }
    var d1 := d.(metrics := diff.store, known := Up);
    if init {
      if d.published == Down {
        PublishOne(d1, Birth);
        BirthLands(d1);
      } else if diff.births != Nil {
        PublishTwo(d1, Death, Birth);
        DeathLands(d1);
        BirthLands(PublishDeath(d1));
      } else if diff.data != Nil {
        PublishOne(d1, Data(diff.data));
        DataLands(d1, d.metrics, diff.data);
      }
    }
  }

  lemma NewDeviceDevOk(init: bool, app: string, sub: string, incoming: Entries)
    requires app != "" && sub != "" && Distinct(incoming) && incoming != Nil
    ensures DevOk(init, DevName(app, sub), Settle(init, OnBirth(NewDev(app, sub), true, incoming)))
  {
    var d := NewDev(app, sub);
    var diff := ProcessNewBirthData(Nil, incoming);
    StoreStaysDistinct(Nil, incoming);
    var d1 := d.(metrics := diff.store, known := Up);
    assert diff.births != Nil;
    PublishOne(d1, Birth);
    BirthLands(d1);
  }

  lemma DataKeepsDevOk(init: bool, name: string, d: Dev, incoming: Entries)
    requires DevOk(init, name, d) && Distinct(incoming)
    ensures DevOk(init, name, Settle(init, OnData(d, incoming)))
  {
    var diff := ProcessNewData(d.metrics, incoming);
    StoreStaysDistinct(d.metrics, incoming);
    forall path {
      DataCovers(d.metrics, incoming, path);
    }
    var d1 := d.(metrics := diff.store, known := Up);
    if init {
      if d.published == Down {
        PublishOne(d1, Birth);
        BirthLands(d1);
      } else if diff.data != Nil {
        PublishOne(d1, Data(diff.data));
        DataLands(d1, d.metrics, diff.data);
      }
    }
  }

  lemma DeathKeepsDevOk(init: bool, name: string, d: Dev)
    requires DevOk(init, name, d) && (init || d.published == Down)
    ensures DevOk(init, name, Settle(init, OnDeath(d)))
  {
    PublishOne(d.(known := Down), Death);
    DeathLands(d.(known := Down));
  }

  /** The one leaf that an update sets, seen at a path. */
  lemma UpdatedAt(store: Entries, k: string, leaf: Metric, path: Path)
    requires k in Keys(store) && Find(store, k).value.Leaf? && leaf.Leaf?
    ensures At(Set(store, k, leaf), path) == Over(At(Cons(k, leaf, Nil), path), At(store, path))
  {
    if path != [] {
      FindSet(store, k, leaf, path[0]);
    }
  }

  lemma UpdateKeepsDevOk(init: bool, name: string, d: Dev, u: Update)
    requires DevOk(init, name, d) && (init || !ReportsDeath(d, u))
    ensures DevOk(init, name, Settle(init, OnUpdate(d, u)))
  {
    if Accepts(d, u) {
      SetDistinct(d.metrics, u.metric, Find(d.metrics, u.metric).value.(val := u.scaled.value));
      if init && OnUpdate(d, u).1 != [] {
        UpdatePublishes(d, u);
      }
    }
  }

  lemma UpdatePublishes(d: Dev, u: Update)
    requires Legal(d.trace) && InSession(d) && Accepts(d, u) && OnUpdate(d, u).1 != []
    ensures
      var e, d2 := Settle(true, OnUpdate(d, u)), OnUpdate(d, u).0;
      Legal(e.trace) && InSession(e) && e == d2.(trace := e.trace, published := e.published)
      && (d2.known == Down ==> e.published == Down)
  {
    var updated := Find(d.metrics, u.metric).value.(val := u.scaled.value);
    var (d2, actions) := OnUpdate(d, u);
    PublishOne(d2, actions[0]);
    match actions[0]
    case Birth => BirthLands(d2);
    case Death => DeathLands(d2);
    case Data(_) => UpdateLands(d, d2, u.metric, updated);
  }

  lemma UpdateLands(d: Dev, d2: Dev, k: string, updated: Metric)
    requires Legal(d.trace) && Alive(d.trace) && HostAgrees(d)
    requires k in Keys(d.metrics) && Find(d.metrics, k).value.Leaf? && updated.Leaf?
    requires d2.metrics == Set(d.metrics, k, updated) && d2.trace == d.trace
    ensures
      var e := d2.(trace := d2.trace + [DData(Cons(k, updated, Nil))], published := Up);
      Legal(e.trace) && InSession(e)
  {
    forall path {
      UpdatedAt(d.metrics, k, updated, path);
    }
    DataLands(d2, d.metrics, Cons(k, updated, Nil));
  }

  lemma NodeBirthKeepsDevOk(init: bool, name: string, d: Dev)
    requires DevOk(init, name, d)
    ensures DevOk(true, name, NodeBorn(d))
  {
    assert !Alive([]);
    BirthLands(d.(trace := []));
  }

  lemma BusKeepsDevOk(init: bool, name: string, d: Dev)
    requires DevOk(init, name, d) && init
    ensures DevOk(init, name, PublishDeath(d))
    ensures DevOk(init, name, PublishBirth(d, false))
  {
    DeathLands(d);
    if d.published != Up {
      BirthLands(d);
    }
  }

  // ----- every run -----

  lemma StepKeepsInv(s: State, ev: Event)
    requires Inv(s) && WellFormed(ev) && Harmless(s, ev)
    ensures Inv(Step(s, ev))
  {
    var t := Step(s, ev);
    forall n | n in t.devs
      ensures DevOk(t.init, n, t.devs[n])
    {
      DeviceKeptOk(s, ev, n);
    }
  }

  lemma DeviceKeptOk(s: State, ev: Event, n: string)
    requires Inv(s) && WellFormed(ev) && Harmless(s, ev) && n in Step(s, ev).devs
    ensures DevOk(Step(s, ev).init, n, Step(s, ev).devs[n])
  {
    match ev
    case BirthMsg(app, sub, metrics) =>
      if n in s.devs {
        BirthKeepsDevOk(s.init, n, s.devs[n], metrics);
      } else {
        NewDeviceDevOk(s.init, app, sub, metrics);
      }
    case DataMsg(_, _, metrics) =>
      DataKeepsDevOk(s.init, n, s.devs[n], metrics);
    case DeathMsg(app) =>
      if app != "" && s.devs[n].app == Some(app) {
        DeathKeepsDevOk(s.init, n, s.devs[n]);
      }
    case UpdateMsg(device, sub, update) =>
      if device != "" && sub != "" && n == DevName(device, sub) {
        UpdateKeepsDevOk(s.init, n, s.devs[n], update);
      }
    case BusLost(_) =>
      if s.init {
        BusKeepsDevOk(s.init, n, s.devs[n]);
      }
    case BusEstablished =>
      if s.init {
        BusKeepsDevOk(s.init, n, s.devs[n]);
      }
    case NodeBirth =>
      NodeBirthKeepsDevOk(s.init, n, s.devs[n]);
    case Disconnected =>
    case NewTemplate =>
  }

  /** Well-formed events none of which is a death processed while the node is not initialised. */
  ghost predicate HarmlessRun(s: State, events: seq<Event>) {
    forall i :: 0 <= i < |events| ==> WellFormed(events[i]) && Harmless(Run(s, events[..i]), events[i])
  }

  lemma {:induction false} RunKeepsInv(s: State, events: seq<Event>)
    requires Inv(s) && HarmlessRun(s, events)
    ensures Inv(Run(s, events))
  {
    if events == [] {
    } else {
      var prefix := events[..|events| - 1];
      forall i | 0 <= i < |prefix|
        ensures WellFormed(prefix[i]) && Harmless(Run(s, prefix[..i]), prefix[i])
      {
        assert prefix[..i] == events[..i];
        assert prefix[i] == events[i];
      }
      RunKeepsInv(s, prefix);
      StepKeepsInv(Run(s, prefix), events[|events| - 1]);
    }
  }

  /** The bridge as it comes up: the configured devices, nothing published, nothing known. */
  ghost predicate Start(s: State) {
    !s.init
    && forall n :: n in s.devs ==>
         s.devs[n].app.None? && Distinct(s.devs[n].metrics)
         && s.devs[n].published == Unknown && s.devs[n].known == Unknown && s.devs[n].trace == []
  }

  /** What a device owes to SCADA: a legal trace always, and while the node is initialised a published
      status that tells whether the device is alive and, if so, a host that holds the stored values. */
  ghost predicate Healthy(s: State) {
    forall n :: n in s.devs ==> Legal(s.devs[n].trace) && (s.init ==> InSession(s.devs[n]))
  }

  lemma EveryRunHealthy(s: State, events: seq<Event>)
    requires Start(s) && HarmlessRun(s, events)
    ensures Healthy(Run(s, events))
    ensures
      var t := Run(s, events);
      forall n :: n in t.devs && t.devs[n].known == Down ==> t.devs[n].published == Down
  {
    RunKeepsInv(s, events);
  }

  // ----- when the hypothesis on deaths is needed -----

  /** A death that is processed while the node is not initialised, and that hits a device not published
      down, leaves a device whose published status is wrong after the next node birth. */
  lemma LateDeathSpoilsNextSession(s: State, ev: Event)
    requires Inv(s) && WellFormed(ev) && !Harmless(s, ev)
    ensures !Healthy(Step(Step(s, ev), NodeBirth))
  {
    var n := Hit(s, ev);
    assert n in Step(s, ev).devs && n in Step(Step(s, ev), NodeBirth).devs;
    assert Step(s, ev).devs[n].known == Down;
    assert Step(s, ev).devs[n].published == s.devs[n].published;
    assert !Alive([]);
  }

  lemma Hit(s: State, ev: Event) returns (n: string)
    requires !Harmless(s, ev)
    ensures n in s.devs && s.devs[n].published != Down && !s.init
    ensures (ev.DeathMsg? && ev.app != "" && s.devs[n].app == Some(ev.app))
            || (ev.UpdateMsg? && ev.device != "" && ev.sub != "" && n == DevName(ev.device, ev.sub)
                && ReportsDeath(s.devs[n], ev.update))
  {
    if ev.DeathMsg? {
      n :| n in s.devs && s.devs[n].app == Some(ev.app) && s.devs[n].published != Down;
    } else {
      n := DevName(ev.device, ev.sub);
    }
  }

  /** What the next node birth makes of a device that died late: known to be down, it is not born again, and
      its published status still says that it need not be. */
  lemma NotBornAgain(d: Dev)
    requires d.known == Down
    ensures NodeBorn(d) == d.(trace := [])
  {
  }

  lemma LoneDataIsIllegal(changed: Entries)
    ensures !Legal([DData(changed)])
  {
    var trace := [DData(changed)];
    assert trace[..0] == [] && trace[0].DData?;
  }

  /** After a late death of an app's device and a node birth, every DATA message that changes anything goes
      out as a DDATA that no DBIRTH precedes. */
  lemma LateDeathThenData(s: State, app: string, n: string, incoming: Entries)
    requires Inv(s) && !s.init && app != "" && n in s.devs
    requires s.devs[n].app == Some(app) && s.devs[n].published != Down
    requires ProcessNewData(s.devs[n].metrics, incoming).data != Nil
    ensures
      var reborn := Step(Step(s, DeathMsg(app)), NodeBirth);
      var t := Step(reborn, DataMsg(app, s.devs[n].sub, incoming));
      && n in t.devs
      && t.devs[n].trace == [DData(ProcessNewData(s.devs[n].metrics, incoming).data)]
      && !Legal(t.devs[n].trace)
  {
    var d := s.devs[n];
    assert DevOk(s.init, n, d);
    NotBornAgain(d.(known := Down));
    var reborn := Step(Step(s, DeathMsg(app)), NodeBirth);
    assert n in reborn.devs && reborn.devs[n] == d.(known := Down, trace := []);
    var diff := ProcessNewData(d.metrics, incoming);
    assert incoming != Nil;
    PublishOne(d.(metrics := diff.store, known := Up, trace := []), Data(diff.data));
    LoneDataIsIllegal(diff.data);
  }

  /** Any other value of a plain metric is such a message. */
  lemma OtherValueIsData(store: Entries, k: string, mtype: nat, val: Value)
    requires k in Keys(store) && Find(store, k).value.Leaf? && val != Find(store, k).value.val
    ensures ProcessNewData(store, Cons(k, Leaf(mtype, Find(store, k).value.dtype, val), Nil)).data != Nil
  {
  }

  /** So every other value of a plain metric breaks the session. */
  lemma LateDeathThenOtherValue(s: State, app: string, n: string, k: string, mtype: nat, val: Value)
    requires Inv(s) && !s.init && app != "" && n in s.devs
    requires s.devs[n].app == Some(app) && s.devs[n].published != Down
    requires k in Keys(s.devs[n].metrics) && Find(s.devs[n].metrics, k).value.Leaf?
    requires val != Find(s.devs[n].metrics, k).value.val
    ensures
      var reborn := Step(Step(s, DeathMsg(app)), NodeBirth);
      var other := Cons(k, Leaf(mtype, Find(s.devs[n].metrics, k).value.dtype, val), Nil);
      var t := Step(reborn, DataMsg(app, s.devs[n].sub, other));
      n in t.devs && !Legal(t.devs[n].trace)
  {
    var other := Cons(k, Leaf(mtype, Find(s.devs[n].metrics, k).value.dtype, val), Nil);
    OtherValueIsData(s.devs[n].metrics, k, mtype, val);
    LateDeathThenData(s, app, n, other);
  }

  /** The same for a Modbus device whose late death was reported by an update: its next good value. */
  lemma LateDeathThenUpdate(s: State, device: string, sub: string, u: Update, next: Update)
    requires Inv(s) && !s.init && device != "" && sub != "" && DevName(device, sub) in s.devs
    requires ReportsDeath(s.devs[DevName(device, sub)], u)
    requires
      var d := OnUpdate(s.devs[DevName(device, sub)], u).0;
      Accepts(d, next) && next.report.Good? && next.scaled.value != Find(d.metrics, next.metric).value.val
    ensures
      var reborn := Step(Step(s, UpdateMsg(device, sub, u)), NodeBirth);
      var t := Step(reborn, UpdateMsg(device, sub, next));
      DevName(device, sub) in t.devs && !Legal(t.devs[DevName(device, sub)].trace)
  {
    var n := DevName(device, sub);
    var d := OnUpdate(s.devs[n], u).0;
    NotBornAgain(d);
    var reborn := Step(Step(s, UpdateMsg(device, sub, u)), NodeBirth);
    assert n in reborn.devs && reborn.devs[n] == d.(trace := []);
    var updated := Find(d.metrics, next.metric).value.(val := next.scaled.value);
    var changed := Cons(next.metric, updated, Nil);
    var d0 := d.(trace := []);
    var d1 := d0.(metrics := Set(d.metrics, next.metric, updated), known := Up);
    assert Accepts(d0, next) && d0.published == Up;
    assert OnUpdate(d0, next) == (d1, [Data(changed)]);
    PublishOne(d1, Data(changed));
    assert Settle(true, OnUpdate(d0, next)).trace == [DData(changed)];
    LoneDataIsIllegal(changed);
  }

  /** Exactly the harmless events lead only to healthy runs. */
  lemma HarmlessExactly(s: State, ev: Event)
    requires Inv(s) && WellFormed(ev)
    ensures Harmless(s, ev) <==>
            forall more :: HarmlessRun(Step(s, ev), more) ==> Healthy(Run(Step(s, ev), more))
  {
    var t := Step(s, ev);
    if Harmless(s, ev) {
      StepKeepsInv(s, ev);
      forall more | HarmlessRun(t, more)
        ensures Healthy(Run(t, more))
      {
        RunKeepsInv(t, more);
      }
    } else {
      LateDeathSpoilsNextSession(s, ev);
      assert [NodeBirth][..0] == [];
      assert Run(t, []) == t;
      assert Run(t, [NodeBirth]) == Step(t, NodeBirth);
      assert HarmlessRun(t, [NodeBirth]);
    }
  }

  // ----- which runs are healthy throughout -----

  /** No device that is known to be down still counts as published otherwise. */
  ghost predicate Ready(s: State) {
    forall n :: n in s.devs && s.devs[n].known == Down ==> s.devs[n].published == Down
  }

  /** Like `Inv`, except that late deaths may be pending while the node is not initialised. */
  ghost predicate DevFit(init: bool, name: string, d: Dev) {
    && Legal(d.trace)
    && Distinct(d.metrics)
    && (d.app.Some? ==> d.app.value != "" && d.sub != "" && name == DevName(d.app.value, d.sub))
    && (init ==> InSession(d))
  }

  ghost predicate Fit(s: State) {
    && (forall n :: n in s.devs ==> DevFit(s.init, n, s.devs[n]))
    && (s.init ==> Ready(s))
  }

  lemma FitAndReady(s: State)
    ensures Inv(s) <==> Fit(s) && Ready(s)
  {
  }

  /** Without a session a message changes stores and known statuses only. */
  ghost predicate OnlyStored(before: Dev, after: Dev) {
    after.trace == before.trace && after.app == before.app && after.sub == before.sub && Distinct(after.metrics)
  }

  lemma OfflineBirth(d: Dev, isNew: bool, incoming: Entries)
    requires Distinct(d.metrics) && Distinct(incoming)
    ensures OnlyStored(d, Settle(false, OnBirth(d, isNew, incoming)))
  {
    StoreStaysDistinct(d.metrics, incoming);
  }

  lemma OfflineData(d: Dev, incoming: Entries)
    requires Distinct(d.metrics) && Distinct(incoming)
    ensures OnlyStored(d, Settle(false, OnData(d, incoming)))
  {
    StoreStaysDistinct(d.metrics, incoming);
  }

  lemma OfflineUpdate(d: Dev, u: Update)
    requires Distinct(d.metrics)
    ensures OnlyStored(d, Settle(false, OnUpdate(d, u)))
  {
    if Accepts(d, u) {
      SetDistinct(d.metrics, u.metric, Find(d.metrics, u.metric).value.(val := u.scaled.value));
    }
  }

  lemma OfflineKeepsDevFit(s: State, ev: Event, n: string)
    requires Fit(s) && WellFormed(ev) && !s.init && !ev.NodeBirth? && n in Step(s, ev).devs
    ensures DevFit(false, n, Step(s, ev).devs[n])
  {
    match ev
    case BirthMsg(app, sub, metrics) =>
      OfflineBirth(if n in s.devs then s.devs[n] else NewDev(app, sub), n !in s.devs, metrics);
    case DataMsg(_, _, metrics) => OfflineData(s.devs[n], metrics);
    case UpdateMsg(_, _, u) => OfflineUpdate(s.devs[n], u);
    case _ =>
  }

  lemma StepKeepsFit(s: State, ev: Event)
    requires Fit(s) && WellFormed(ev) && (ev.NodeBirth? ==> Ready(s))
    ensures Fit(Step(s, ev))
  {
    FitAndReady(s);
    if s.init || ev.NodeBirth? {
      StepKeepsInv(s, ev);
      FitAndReady(Step(s, ev));
    } else {
      forall n | n in Step(s, ev).devs
        ensures DevFit(false, n, Step(s, ev).devs[n])
      {
        OfflineKeepsDevFit(s, ev, n);
      }
    }
  }

  lemma UnreadyBirthSpoils(s: State)
    requires !Ready(s)
    ensures !Healthy(Step(s, NodeBirth))
  {
    var n :| n in s.devs && s.devs[n].known == Down && s.devs[n].published != Down;
    NotBornAgain(s.devs[n]);
    assert n in Step(s, NodeBirth).devs && Step(s, NodeBirth).devs[n].trace == [];
    assert !Alive([]);
  }

  ghost predicate HealthyThroughout(s: State, events: seq<Event>) {
    forall i :: 0 <= i <= |events| ==> Healthy(Run(s, events[..i]))
  }

  /** At every node birth all late deaths have been repaired. */
  ghost predicate BirthsReady(s: State, events: seq<Event>) {
    forall i :: 0 <= i < |events| && events[i].NodeBirth? ==> Ready(Run(s, events[..i]))
  }

  lemma RunOneMore(s: State, events: seq<Event>, i: nat)
    requires i < |events|
    ensures Run(s, events[..i + 1]) == Step(Run(s, events[..i]), events[i])
  {
    assert events[..i + 1][..i] == events[..i];
  }

  lemma {:induction false} ReadyKeepsFit(s: State, events: seq<Event>, i: nat)
    requires Fit(s) && i <= |events| && BirthsReady(s, events)
    requires forall k :: 0 <= k < |events| ==> WellFormed(events[k])
    ensures Fit(Run(s, events[..i]))
  {
    if i == 0 {
    } else {
      ReadyKeepsFit(s, events, i - 1);
      RunOneMore(s, events, i - 1);
      StepKeepsFit(Run(s, events[..i - 1]), events[i - 1]);
    }
  }

  lemma StartIsFit(s: State)
    requires Start(s)
    ensures Fit(s)
  {
  }

  /** From a start state, or any other that fits, a run is healthy throughout exactly if at every node birth
      no device is known to be down without having been published down. */
  lemma HealthyExactly(s: State, events: seq<Event>)
    requires Fit(s) && forall k :: 0 <= k < |events| ==> WellFormed(events[k])
    ensures HealthyThroughout(s, events) <==> BirthsReady(s, events)
  {
    if BirthsReady(s, events) {
      forall i | 0 <= i <= |events|
        ensures Healthy(Run(s, events[..i]))
      {
        ReadyKeepsFit(s, events, i);
      }
    } else {
      var i :| 0 <= i < |events| && events[i].NodeBirth? && !Ready(Run(s, events[..i]));
      UnreadyBirthSpoils(Run(s, events[..i]));
      RunOneMore(s, events, i);
      assert !Healthy(Run(s, events[..i + 1]));
    }
  }

  function Reading(n: int): Entries {
    Cons("t", Leaf(10, 10, VInt(n)), Nil)
  }

  /** A new app device, born in an initialised node. */
  lemma FirstReading()
    ensures Step(State(true, map[]), BirthMsg("app", "d", Reading(1))) ==
            State(true, map["app-d" := Dev(Some("app"), "d", Reading(1), Up, Up, [DBirth(Reading(1))])])
  {
    assert DevName("app", "d") == "app-d";
    assert ProcessNewBirthData(Nil, Reading(1)) == Diff(Reading(1), Reading(1), Nil) by {
      assert ProcessNewBirthData(Reading(1), Nil) == Diff(Reading(1), Nil, Nil);
    }
    var d := NewDev("app", "d").(metrics := Reading(1), known := Up);
    PublishOne(d, Birth);
    assert Publish(d, Birth).trace == [DBirth(Reading(1))];
  }

  lemma NextReading(d: Dev)
    requires d.metrics == Reading(1) && d.published == Up && d.trace == []
    ensures Settle(true, OnData(d, Reading(2))).trace == [DData(Reading(2))]
  {
    assert ProcessNewData(Reading(1), Reading(2)) == Diff(Reading(2), Nil, Reading(2)) by {
      assert ProcessNewData(Reading(2), Nil) == Diff(Reading(2), Nil, Nil);
      assert AssignNewValue(Leaf(10, 10, VInt(1)), Leaf(10, 10, VInt(2))) == Leaf(10, 10, VInt(2));
    }
    PublishOne(d.(metrics := Reading(2), known := Up), Data(Reading(2)));
  }

  /** The session of that device: up, silent while the node is away, dead, and not born again. */
  lemma LateDeath()
    ensures
      var connected := State(true, map["app-d" := Dev(Some("app"), "d", Reading(1), Up, Up, [DBirth(Reading(1))])]);
      Step(Step(Step(connected, Disconnected), DeathMsg("app")), NodeBirth) ==
      State(true, map["app-d" := Dev(Some("app"), "d", Reading(1), Up, Down, [])])
  {
    var d := Dev(Some("app"), "d", Reading(1), Up, Up, [DBirth(Reading(1))]);
    var late := Step(State(false, map["app-d" := d]), DeathMsg("app"));
    assert late == State(false, map["app-d" := d.(known := Down)]);
    assert Step(late, NodeBirth) == State(true, map["app-d" := d.(known := Down, trace := [])]);
  }

  /** Without the hypothesis: an app dies while the node is disconnected, and after the node's rebirth its
      next value goes out as a DDATA that no DBIRTH precedes. */
  lemma DataWithoutBirth()
    ensures
      var connected := Step(Step(State(false, map[]), NodeBirth), BirthMsg("app", "d", Reading(1)));
      var reborn := Step(Step(Step(connected, Disconnected), DeathMsg("app")), NodeBirth);
      var after := Step(reborn, DataMsg("app", "d", Reading(2)));
      && "app-d" in after.devs
      && after.devs["app-d"].trace == [DData(Reading(2))]
      && !Legal(after.devs["app-d"].trace)
  {
    assert Step(State(false, map[]), NodeBirth) == State(true, map[]);
    FirstReading();
    LateDeath();
    assert DevName("app", "d") == "app-d";
    var d := Dev(Some("app"), "d", Reading(1), Up, Down, []);
    NextReading(d);
    assert [DData(Reading(2))][..0] == [];
  }
}
