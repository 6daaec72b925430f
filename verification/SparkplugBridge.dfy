/**
 The bridge's objects: devices that hold their metrics and status variables, the device manager's map,
 and the handlers that turn messages into actions and actions into published messages. Every handler
 is one step of the session machine.
 */
module SparkplugBridge {
  import opened Wrappers
  import opened MetricTree
  import opened SparkplugSession

  lemma {:induction false} AppendKeys(es: Entries, k: string, m: Metric, more: Entries)
    ensures Append(Append(es, Cons(k, m, Nil)), more) == Append(es, Cons(k, m, more))
    decreases es
  {
    if es.Nil? {
    } else {
      AppendKeys(es.rest, k, m, more);
    }
  }

  function Append(es: Entries, more: Entries): Entries {
    match es
    case Nil => more
    case Cons(k, m, rest) => Cons(k, m, Append(rest, more))
  }

  lemma {:induction false} AppendNil(es: Entries)
    ensures Append(es, Nil) == es
  {
    if es.Nil? {
    } else {
      AppendNil(es.rest);
    }
  }

  class Device {
    const name: string
    const app: Option<string>
    const sub: string
    var metrics: Entries
    var published: Status
    var known: Status
    /** Messages handed to the SCADA client for this device since the last NBIRTH. */
    var trace: seq<Out>

    function View(): Dev
      reads this
    {
      Dev(app, sub, metrics, published, known, trace)
    }

    constructor (name: string, app: Option<string>, sub: string, metrics: Entries)
      ensures this.name == name && View() == Dev(app, sub, metrics, Unknown, Unknown, [])
    {
      this.name, this.app, this.sub := name, app, sub;
      this.metrics, published, known, trace := metrics, Unknown, Unknown, [];
    }

    /** New and retyped metrics if there are any, otherwise the changed values. */
    method ProcessNewBirthData(incoming: Entries) returns (changed: Entries, onlyValues: bool)
      modifies this`metrics
      ensures
        var d := SparkplugSession.ProcessNewBirthData(old(metrics), incoming);
        && metrics == d.store
        && changed == (if d.births != Nil then d.births else d.data)
        && (onlyValues <==> d.births == Nil && d.data != Nil)
    {
      var births, data, left := Nil, Nil, incoming;
      while left != Nil
        invariant
          var d := SparkplugSession.ProcessNewBirthData(metrics, left);
          SparkplugSession.ProcessNewBirthData(old(metrics), incoming) ==
          Diff(d.store, Append(births, d.births), Append(data, d.data))
        decreases left
      {
        var k, m := left.name, left.metric;
        ghost var d := SparkplugSession.ProcessNewBirthData(metrics, left);
        match Find(metrics, k) {
          case None =>
            AppendKeys(births, k, m, d.births.rest);
            metrics := Insert(metrics, k, m);
            births := Append(births, Cons(k, m, Nil));
          case Some(mine) =>
            var (verdict, pruned) := CompareValue(mine, m);
            if verdict == ValuesDiffer {
              AppendKeys(data, k, pruned, d.data.rest);
              metrics := Set(metrics, k, AssignNewValue(mine, pruned));
              data := Append(data, Cons(k, pruned, Nil));
            } else if verdict == TypesDiffer {
              AppendKeys(births, k, m, d.births.rest);
              metrics := Set(metrics, k, m);
              births := Append(births, Cons(k, m, Nil));
            }
        }
        left := left.rest;
      }
      AppendNil(births);
      AppendNil(data);
      onlyValues := births == Nil && data != Nil;
      changed := if births != Nil then births else data;
    }

    /** The changed values; unknown and retyped metrics are ignored. */
    method ProcessNewData(incoming: Entries) returns (changed: Entries)
      modifies this`metrics
      ensures
        var d := SparkplugSession.ProcessNewData(old(metrics), incoming);
        metrics == d.store && changed == d.data
    {
      changed := Nil;
      var left := incoming;
      while left != Nil
        invariant
          var d := SparkplugSession.ProcessNewData(metrics, left);
          SparkplugSession.ProcessNewData(old(metrics), incoming) ==
          Diff(d.store, d.births, Append(changed, d.data))
        decreases left
      {
        var k, m := left.name, left.metric;
        ghost var d := SparkplugSession.ProcessNewData(metrics, left);
        match Find(metrics, k) {
          case None =>
          case Some(mine) =>
            var (verdict, pruned) := CompareValue(mine, m);
            if verdict == ValuesDiffer {
              AppendKeys(changed, k, pruned, d.data.rest);
              metrics := Set(metrics, k, AssignNewValue(mine, pruned));
              changed := Append(changed, Cons(k, pruned, Nil));
            }
        }
        left := left.rest;
      }
      AppendNil(changed);
    }

    /** A status message of a Modbus device, judged against what SCADA was told last. */
    method ProcessRealDeviceUpdateMsg(u: Update) returns (actions: seq<Action>)
      modifies this`metrics, this`known
      ensures (View(), actions) == OnUpdate(old(View()), u)
    {
      actions := [];
      if !Accepts(View(), u) {
        return;
      }
      var mine := Find(metrics, u.metric).value;
      var updated := mine.(val := u.scaled.value);
      var differs := mine.val != u.scaled.value;
      var good := u.report.Good?;
      var lateValue := u.lastGoodUsec != 0 && differs && u.hasValue;
      match published {
        case Unknown =>
        case Down =>
          if good {
            metrics := Set(metrics, u.metric, updated);
            actions := [Birth];
            known := Up;
          } else if lateValue {
            metrics := Set(metrics, u.metric, updated);
          }
        case Up =>
          if good {
            if differs {
              metrics := Set(metrics, u.metric, updated);
              actions := [Data(Cons(u.metric, updated, Nil))];
              known := Up;
            }
          } else if IsDeathCode(u.report.code) {
            if lateValue {
              metrics := Set(metrics, u.metric, updated);
            }
            actions := [Death];
            known := Down;
          } else if lateValue {
            metrics := Set(metrics, u.metric, updated);
            actions := [Data(Cons(u.metric, updated, Nil))];
            known := Up;
          }
      }
    }

    /** The payload of a DBIRTH, unless the device is known to be down or, outside a node birth, is up. */
    method PrepareDBirthMessage(nodeBirth: bool) returns (payload: Option<Entries>)
      ensures PublishBirth(View(), nodeBirth) ==
              if payload.None? then View() else View().(trace := trace + [DBirth(payload.value)], published := Up)
      ensures payload.Some? ==> payload.value == metrics && known != Down && (nodeBirth || published != Up)
    {
      if known == Down || (!nodeBirth && published == Up) {
        return None;
      }
      return Some(metrics);
    }
  }

  /** An action and the device it is for. */
  datatype DeviceAction = DeviceAction(device: Device, action: Action)

  /** The actions of one device, in order. */
  ghost function Of(actions: seq<DeviceAction>, d: Device): seq<Action> {
    if actions == [] then []
    else
      var before, last := Of(actions[..|actions| - 1], d), actions[|actions| - 1];
      if last.device == d then before + [last.action] else before
  }

  lemma OfAppend(actions: seq<DeviceAction>, a: DeviceAction, d: Device)
    ensures Of(actions + [a], d) == if a.device == d then Of(actions, d) + [a.action] else Of(actions, d)
  {
    assert (actions + [a])[..|actions|] == actions;
  }

  lemma PublishAllAppend(d: Dev, actions: seq<Action>, a: Action)
    ensures PublishAll(d, actions + [a]) == Publish(PublishAll(d, actions), a)
  {
    assert (actions + [a])[..|actions|] == actions;
  }

  /** The actions of one message, all for the same device. */
  function ForDevice(d: Device, actions: seq<Action>): (r: seq<DeviceAction>)
    ensures |r| == |actions|
    ensures forall i :: 0 <= i < |r| ==> r[i] == DeviceAction(d, actions[i])
  {
    if actions == [] then []
    else ForDevice(d, actions[..|actions| - 1]) + [DeviceAction(d, actions[|actions| - 1])]
  }

  lemma {:induction false} OfForDevice(d: Device, actions: seq<Action>, e: Device)
    ensures Of(ForDevice(d, actions), e) == if e == d then actions else []
  {
    if actions == [] {
    } else {
      OfForDevice(d, actions[..|actions| - 1], e);
      OfAppend(ForDevice(d, actions[..|actions| - 1]), DeviceAction(d, actions[|actions| - 1]), e);
    }
  }

  /** A death of each device in a list. */
  function Deaths(ds: seq<Device>): seq<DeviceAction> {
    if ds == [] then [] else Deaths(ds[..|ds| - 1]) + [DeviceAction(ds[|ds| - 1], Death)]
  }

  lemma {:induction false} OfDeaths(ds: seq<Device>, e: Device)
    requires forall i, j :: 0 <= i < j < |ds| ==> ds[i] != ds[j]
    ensures Of(Deaths(ds), e) == if e in ds then [Death] else []
  {
    if ds == [] {
    } else {
      OfDeaths(ds[..|ds| - 1], e);
      OfAppend(Deaths(ds[..|ds| - 1]), DeviceAction(ds[|ds| - 1], Death), e);
      assert ds == ds[..|ds| - 1] + [ds[|ds| - 1]];
    }
  }

  lemma {:induction false} DeathsDevices(ds: seq<Device>)
    ensures |Deaths(ds)| == |ds| && forall i :: 0 <= i < |ds| ==> Deaths(ds)[i].device == ds[i]
  {
    if ds == [] {
    } else {
      DeathsDevices(ds[..|ds| - 1]);
    }
  }

  /** What a BIRTH makes of its device, which is a new one if its name is not known. */
  function BirthOutcome(s: State, app: string, sub: string, incoming: Entries): (Dev, seq<Action>) {
    var name := DevName(app, sub);
    if name in s.devs then OnBirth(s.devs[name], false, incoming) else OnBirth(NewDev(app, sub), true, incoming)
  }

  class Bridge {
    var init: bool
    var devices: map<string, Device>
    /** The devices that each vendor app created. */
    var apps: map<string, seq<Device>>

    ghost predicate Valid()
      reads this
    {
      && (forall n :: n in devices ==> devices[n].name == n)
      && (forall a, i :: a in apps && 0 <= i < |apps[a]| ==>
            apps[a][i].name in devices && devices[apps[a][i].name] == apps[a][i] && apps[a][i].app == Some(a))
      && (forall a, i, j :: a in apps && 0 <= i < j < |apps[a]| ==> apps[a][i] != apps[a][j])
      && (forall n :: n in devices && devices[n].app.Some? ==>
            devices[n].app.value in apps && devices[n] in apps[devices[n].app.value])
    }

    ghost function View(): State
      reads this, devices.Values
    {
      State(init, map n | n in devices :: devices[n].View())
    }

    constructor ()
      ensures Valid() && View() == State(false, map[]) && Start(View())
    {
      init, devices, apps := false, map[], map[];
    }

    /** A configured Modbus device; a repeated name is ignored. */
    method AddRealDevice(name: string, sub: string, metrics: Entries) returns (added: bool)
      requires Valid() && Distinct(metrics)
      modifies this`devices
      ensures Valid() && added == (name !in old(devices))
      ensures !added ==> devices == old(devices)
      ensures added ==>
                && name in devices && fresh(devices[name])
                && devices == old(devices)[name := devices[name]]
                && devices[name].View() == Dev(None, sub, metrics, Unknown, Unknown, [])
      ensures old(Start(View())) ==> Start(View())
    {
      added := name !in devices;
      if added {
        ghost var s := View();
        var d := new Device(name, None, sub, metrics);
        devices := devices[name := d];
        assert forall n :: n in s.devs ==> View().devs[n] == s.devs[n];
      }
    }

    /** All configured devices. A bridge that has only these is in a start state. */
    method AddRealDevices(configured: seq<(string, string, Entries)>)
      requires Valid() && forall i :: 0 <= i < |configured| ==> Distinct(configured[i].2)
      requires Start(View())
      modifies this`devices
      ensures Valid() && Start(View())
      ensures devices.Keys == old(devices.Keys) + (set i | 0 <= i < |configured| :: configured[i].0)
    {
      for i := 0 to |configured|
        invariant Valid() && Start(View())
        invariant devices.Keys == old(devices.Keys) + (set k | 0 <= k < i :: configured[k].0)
      {
        var _ := AddRealDevice(configured[i].0, configured[i].1, configured[i].2);
      }
    }

    // ----- publishing -----

    method PublishDeviceBirth(name: string, nodeBirth: bool)
      requires Valid() && name in devices
      modifies devices[name]
      ensures devices[name].View() == PublishBirth(old(devices[name].View()), nodeBirth)
    {
      var payload := devices[name].PrepareDBirthMessage(nodeBirth);
      if payload.Some? {
        devices[name].trace := devices[name].trace + [DBirth(payload.value)];
        devices[name].published := Up;
      }
    }

    method PublishMsgDDEATH(d: Device)
      modifies d`trace, d`published
      ensures d.View() == PublishDeath(old(d.View()))
    {
      d.trace := d.trace + [DDeath];
      d.published := Down;
    }

    method PublishMsgDDATA(d: Device, changed: Entries)
      modifies d`trace, d`published
      ensures d.View() == Publish(old(d.View()), Data(changed))
    {
      if changed != Nil {
        d.trace := d.trace + [DData(changed)];
        d.published := Up;
      }
    }

    /** Publishes an action vector; nothing at all while the node is not initialised. */
    method PrepareSparkPlugMsg(actions: seq<DeviceAction>) returns (ok: bool)
      requires Valid()
      requires forall i :: 0 <= i < |actions| ==>
                 actions[i].device.name in devices && devices[actions[i].device.name] == actions[i].device
      modifies devices.Values
      ensures ok == init
      ensures forall n :: n in devices ==>
                devices[n].View() == Settle(init, (old(devices[n].View()), Of(actions, devices[n])))
    {
      if !init {
        return false;
      }
      for i := 0 to |actions|
        invariant forall n :: n in devices ==>
                    devices[n].View() == PublishAll(old(devices[n].View()), Of(actions[..i], devices[n]))
      {
        var d, action := actions[i].device, actions[i].action;
        label Before:
        match action {
          case Birth => PublishDeviceBirth(d.name, false);
          case Death => PublishMsgDDEATH(d);
          case Data(changed) => PublishMsgDDATA(d, changed);
        }
        assert d.View() == Publish(old@Before(d.View()), action);
        forall n | n in devices
          ensures devices[n].View() == PublishAll(old(devices[n].View()), Of(actions[..i + 1], devices[n]))
        {
          assert actions[..i + 1] == actions[..i] + [actions[i]];
          OfAppend(actions[..i], actions[i], devices[n]);
          PublishAllAppend(old(devices[n].View()), Of(actions[..i], devices[n]), action);
          if devices[n] != d {
            assert devices[n].View() == old@Before(devices[n].View());
          }
        }
      }
      assert actions[..|actions|] == actions;
      return true;
    }
  
    // ----- messages to actions -----

    /** The device `name` has become `outcome.0`, `actions` are for it, and no other device changed. */
    twostate predicate Processed(name: string, outcome: (Dev, seq<Action>), new actions: seq<DeviceAction>)
      reads this, devices.Values
    {
      && name in devices
      && devices[name].View() == outcome.0
      && actions == ForDevice(devices[name], outcome.1)
      && (forall n :: n in old(devices) ==> n in devices && devices[n] == old(devices[n]))
      && (forall n :: n in old(devices) && n != name ==> devices[n].View() == old(devices[n].View()))
    }

    method AddVendorDevice(app: string, sub: string)
      requires Valid() && DevName(app, sub) !in devices
      modifies this`devices, this`apps
      ensures Valid() && DevName(app, sub) in devices && fresh(devices[DevName(app, sub)])
      ensures devices == old(devices)[DevName(app, sub) := devices[DevName(app, sub)]]
      ensures devices[DevName(app, sub)].View() == NewDev(app, sub)
    {
      var d := new Device(DevName(app, sub), Some(app), sub, Nil);
      devices := devices[DevName(app, sub) := d];
      apps := apps[app := (if app in apps then apps[app] else []) + [d]];
    }
  
    twostate predicate Untouched(new actions: seq<DeviceAction>)
      reads this, devices.Values
    {
      && actions == []
      && devices == old(devices)
      && forall n :: n in devices ==> devices[n].View() == old(devices[n].View())
    }

    method ProcessBirthMsg(app: string, sub: string, incoming: Entries) returns (actions: seq<DeviceAction>)
      requires Valid()
      modifies this`devices, this`apps, devices.Values
      ensures Valid() && fresh(devices.Values - old(devices.Values))
      ensures app == "" || sub == "" || incoming == Nil ==> Untouched(actions)
      ensures app != "" && sub != "" && incoming != Nil ==>
                devices.Keys == old(devices.Keys) + {DevName(app, sub)}
                && Processed(DevName(app, sub), BirthOutcome(old(View()), app, sub, incoming), actions)
    {
      if app == "" || sub == "" || incoming == Nil {
        return [];
      }
      var name := DevName(app, sub);
      var isNew := name !in devices;
      if isNew {
        AddVendorDevice(app, sub);
      }
      var todo := BirthActions(devices[name], isNew, incoming);
      actions := ForDevice(devices[name], todo);
    }

    method BirthActions(d: Device, isNew: bool, incoming: Entries) returns (todo: seq<Action>)
      modifies d`metrics, d`known
      ensures (d.View(), todo) == OnBirth(old(d.View()), isNew, incoming)
    {
      var changed, onlyValues := d.ProcessNewBirthData(incoming);
      todo := [];
      if d.published == Down {
        todo := [Birth];
        d.known := Up;
      } else if changed != Nil {
        if !onlyValues {
          todo := if isNew then [Birth] else [Death, Birth];
        } else {
          todo := [Data(changed)];
        }
        d.known := Up;
      }
    }

    method ProcessDataMsg(app: string, sub: string, incoming: Entries) returns (actions: seq<DeviceAction>)
      requires Valid()
      modifies devices.Values
      ensures app == "" || sub == "" || DevName(app, sub) !in devices || incoming == Nil ==> Untouched(actions)
      ensures app != "" && sub != "" && DevName(app, sub) in devices && incoming != Nil ==>
                Processed(DevName(app, sub), OnData(old(View()).devs[DevName(app, sub)], incoming), actions)
    {
      if app == "" || sub == "" || DevName(app, sub) !in devices || incoming == Nil {
        return [];
      }
      var d := devices[DevName(app, sub)];
      var changed := d.ProcessNewData(incoming);
      var todo := [];
      if d.published == Down {
        todo := [Birth];
        d.known := Up;
      } else if changed != Nil {
        todo := [Data(changed)];
        d.known := Up;
      }
      actions := ForDevice(d, todo);
    }

    method ProcessUpdateMsg(device: string, sub: string, u: Update) returns (actions: seq<DeviceAction>)
      requires Valid()
      modifies devices.Values
      ensures device == "" || sub == "" || DevName(device, sub) !in devices ==> Untouched(actions)
      ensures device != "" && sub != "" && DevName(device, sub) in devices ==>
                Processed(DevName(device, sub), OnUpdate(old(View()).devs[DevName(device, sub)], u), actions)
    {
      if device == "" || sub == "" || DevName(device, sub) !in devices {
        return [];
      }
      var d := devices[DevName(device, sub)];
      var todo := d.ProcessRealDeviceUpdateMsg(u);
      actions := ForDevice(d, todo);
    }

    /** Every device that the app created dies. */
    method ProcessDeathMsg(app: string) returns (actions: seq<DeviceAction>)
      requires Valid()
      modifies devices.Values
      ensures actions == Deaths(if app != "" && app in apps then apps[app] else [])
      ensures forall n :: n in devices ==>
                devices[n].View() ==
                if app != "" && devices[n].app == Some(app) then OnDeath(old(devices[n].View())).0
                else old(devices[n].View())
    {
      actions := [];
      if app == "" || app !in apps {
        return;
      }
      var mine := apps[app];
      for i := 0 to |mine|
        invariant actions == Deaths(mine[..i])
        invariant forall n :: n in devices ==>
                    devices[n].View() ==
                    if devices[n] in mine[..i] then OnDeath(old(devices[n].View())).0 else old(devices[n].View())
      {
        var d := mine[i];
        assert mine[..i + 1] == mine[..i] + [d];
        assert d !in mine[..i];
        actions := actions + [DeviceAction(d, Death)];
        d.known := Down;
      }
      assert mine[..|mine|] == mine;
    }
  
    // ----- every handler is a step -----

    /** The device `name` of state `s` has become `outcome.0`, with `outcome.1` still to be published. */
    ghost predicate Awaits(s: State, name: string, outcome: (Dev, seq<Action>), actions: seq<DeviceAction>)
      reads this, devices.Values
    {
      && init == s.init && devices.Keys == s.devs.Keys + {name}
      && devices[name].View() == outcome.0 && actions == ForDevice(devices[name], outcome.1)
      && forall n :: n in s.devs && n != name ==> devices[n].View() == s.devs[n]
    }

    /** Publishes what one message asked for, if it was for a device at all. */
    method Dispatch(actions: seq<DeviceAction>, ghost s: State, ghost hit: bool, ghost name: string,
                    ghost outcome: (Dev, seq<Action>))
      requires Valid()
      requires if hit then Awaits(s, name, outcome, actions) else actions == [] && View() == s
      modifies devices.Values
      ensures View() == if hit then s.(devs := s.devs[name := Settle(s.init, outcome)]) else s
    {
      forall n | n in devices
        ensures hit ==> Of(actions, devices[n]) == if n == name then outcome.1 else []
      {
        if hit {
          OfForDevice(devices[name], outcome.1, devices[n]);
        }
      }
      var _ := PrepareSparkPlugMsg(actions);
      if hit {
        OneReplaced(s, View(), name, Settle(s.init, outcome));
      } else {
        SameDevices(s, View());
      }
    }

    method HandleBirth(app: string, sub: string, incoming: Entries)
      requires Valid()
      modifies this`devices, this`apps, devices.Values
      ensures Valid() && fresh(devices.Values - old(devices.Values))
      ensures View() == Step(old(View()), BirthMsg(app, sub, incoming))
    {
      ghost var name, s := DevName(app, sub), View();
      ghost var hit := app != "" && sub != "" && incoming != Nil;
      ghost var outcome := BirthOutcome(s, app, sub, incoming);
      BirthStep(s, app, sub, incoming);
      var actions := ProcessBirthMsg(app, sub, incoming);
      Dispatch(actions, s, hit, name, outcome);
    }

    method HandleData(app: string, sub: string, incoming: Entries)
      requires Valid()
      modifies devices.Values
      ensures View() == Step(old(View()), DataMsg(app, sub, incoming))
    {
      ghost var name, s := DevName(app, sub), View();
      ghost var hit := app != "" && sub != "" && incoming != Nil && name in devices;
      ghost var outcome := if hit then OnData(s.devs[name], incoming) else (NewDev(app, sub), []);
      DataStep(s, app, sub, incoming);
      var actions := ProcessDataMsg(app, sub, incoming);
      Dispatch(actions, s, hit, name, outcome);
    }

    method HandleUpdate(device: string, sub: string, u: Update)
      requires Valid()
      modifies devices.Values
      ensures View() == Step(old(View()), UpdateMsg(device, sub, u))
    {
      ghost var name, s := DevName(device, sub), View();
      ghost var hit := device != "" && sub != "" && name in devices;
      ghost var outcome := if hit then OnUpdate(s.devs[name], u) else (NewDev(device, sub), []);
      var actions := ProcessUpdateMsg(device, sub, u);
      Dispatch(actions, s, hit, name, outcome);
    }

    method HandleDeath(app: string)
      requires Valid()
      modifies devices.Values
      ensures View() == Step(old(View()), DeathMsg(app))
    {
      ghost var s := View();
      var actions := ProcessDeathMsg(app);
      ghost var mine := if app != "" && app in apps then apps[app] else [];
      DeathsDevices(mine);
      forall n | n in devices
        ensures Of(actions, devices[n]) == if app != "" && devices[n].app == Some(app) then [Death] else []
      {
        OfDeaths(mine, devices[n]);
      }
      var _ := PrepareSparkPlugMsg(actions);
      DevicesDied(s, View(), app);
    }

    method GetDeviceList() returns (names: seq<string>)
      ensures forall n :: n in names <==> n in devices
      ensures forall i, j :: 0 <= i < j < |names| ==> names[i] != names[j]
      ensures |names| == |devices|
    {
      names := [];
      var left := devices.Keys;
      while left != {}
        invariant left <= devices.Keys
        invariant |names| + |left| == |devices.Keys|
        invariant forall n :: n in names <==> n in devices && n !in left
        invariant forall i, j :: 0 <= i < j < |names| ==> names[i] != names[j]
        decreases |left|
      {
        var n :| n in left;
        left := left - {n};
        names := names + [n];
      }
    }

    method PublishAllDevBirths(nodeBirth: bool)
      requires Valid()
      modifies devices.Values
      ensures forall n :: n in devices ==> devices[n].View() == PublishBirth(old(devices[n].View()), nodeBirth)
    {
      var names := GetDeviceList();
      for i := 0 to |names|
        invariant forall n :: n in devices ==>
                    devices[n].View() == if n in names[..i] then PublishBirth(old(devices[n].View()), nodeBirth)
                                         else old(devices[n].View())
      {
        assert names[..i + 1] == names[..i] + [names[i]];
        assert names[i] !in names[..i];
        PublishDeviceBirth(names[i], nodeBirth);
      }
      assert names[..|names|] == names;
    }

    /** NBIRTH: SCADA forgets what it has seen of every device. */
    method PublishNodeBirth()
      requires Valid()
      modifies devices.Values
      ensures forall n :: n in devices ==> devices[n].View() == old(devices[n].View()).(trace := [])
    {
      var names := GetDeviceList();
      for i := 0 to |names|
        invariant forall n :: n in devices ==>
                    devices[n].View() == if n in names[..i] then old(devices[n].View()).(trace := [])
                                         else old(devices[n].View())
      {
        assert names[..i + 1] == names[..i] + [names[i]];
        devices[names[i]].trace := [];
      }
      assert names[..|names|] == names;
    }

    /** NBIRTH and every DBIRTH. */
    method HandleScadaConnectionSuccess()
      requires Valid()
      modifies this`init, devices.Values
      ensures View() == Step(old(View()), NodeBirth)
    {
      ghost var s := View();
      PublishNodeBirth();
      PublishAllDevBirths(true);
      init := true;
      DevicesBorn(s, View());
    }

    method HandleIntMqttConnEstablished()
      requires Valid()
      modifies devices.Values
      ensures View() == Step(old(View()), BusEstablished)
    {
      if init {
        PublishAllDevBirths(false);
      }
    }

    /** The DDEATHs of the bus loss in state `s` have gone out to the devices in `reached`. */
    ghost predicate LostSoFar(s: State, reached: set<string>)
      reads this, devices.Values
    {
      && init == s.init && devices.Keys == s.devs.Keys
      && forall n :: n in devices ==>
           devices[n].View() == if init && n in reached then PublishDeath(s.devs[n]) else s.devs[n]
    }

    /** The DDEATH of one more device. */
    method LoseDevice(name: string, ghost s: State, ghost reached: set<string>)
      requires Valid() && init && name in devices && name !in reached && LostSoFar(s, reached)
      modifies devices[name]
      ensures LostSoFar(s, reached + {name})
    {
      PublishMsgDDEATH(devices[name]);
    }

    /** A DDEATH for one device after the other, until the bus is back (after `quota` devices). */
    method HandleIntMqttConnLost(quota: nat) returns (ghost reached: set<string>)
      requires Valid()
      modifies devices.Values
      ensures View() == Step(old(View()), BusLost(reached))
      ensures reached <= devices.Keys
      ensures |reached| == if !init then 0 else if quota < |devices| then quota else |devices|
      ensures init && |devices| <= quota ==> reached == devices.Keys
    {
      ghost var s := View();
      var names := GetDeviceList();
      var i := 0;
      while i < |names| && i != quota && init
        invariant 0 <= i <= |names| && i <= quota && (!init ==> i == 0)
        invariant LostSoFar(s, FirstOf(names, i))
      {
        FirstOfNext(names, i);
        LoseDevice(names[i], s, FirstOf(names, i));
        i := i + 1;
      }
      reached := FirstOf(names, i);
      FirstOfCount(names, i);
      DevicesReached(s, View(), reached);
      NamesReached(names, i, devices.Keys);
    }

    method HandleDisconnected()
      modifies this`init
      ensures View() == Step(old(View()), Disconnected)
    {
      init := false;
    }

    /** New templates go out with the next NBIRTH. */
    method PublishNewUDTs()
      modifies this`init
      ensures View() == Step(old(View()), NewTemplate)
    {
      if init {
        init := false;
      }
    }
  }

  /** The first `n` names of a list. */
  ghost function FirstOf(names: seq<string>, n: nat): set<string>
    requires n <= |names|
  {
    set k | 0 <= k < n :: names[k]
  }

  lemma FirstOfNext(names: seq<string>, n: nat)
    requires n < |names| && forall i, j :: 0 <= i < j < |names| ==> names[i] != names[j]
    ensures names[n] !in FirstOf(names, n) && FirstOf(names, n + 1) == FirstOf(names, n) + {names[n]}
  {
  }

  lemma {:induction false} FirstOfCount(names: seq<string>, n: nat)
    requires n <= |names| && forall i, j :: 0 <= i < j < |names| ==> names[i] != names[j]
    ensures |FirstOf(names, n)| == n
  {
    if n == 0 {
      assert FirstOf(names, 0) == {};
    } else {
      FirstOfNext(names, n - 1);
      FirstOfCount(names, n - 1);
    }
  }

  lemma NamesReached(names: seq<string>, n: nat, all: set<string>)
    requires n <= |names| && forall x :: x in names <==> x in all
    ensures FirstOf(names, n) <= all
    ensures n == |names| ==> FirstOf(names, n) == all
  {
  }

  lemma DevicesDied(s: State, t: State, app: string)
    requires t.init == s.init && t.devs.Keys == s.devs.Keys
    requires forall n :: n in s.devs ==>
               t.devs[n] == if app != "" && s.devs[n].app == Some(app) then Settle(s.init, OnDeath(s.devs[n]))
                            else s.devs[n]
    ensures t == Step(s, DeathMsg(app))
  {
    SameDevices(Step(s, DeathMsg(app)), t);
  }

  lemma BirthStep(s: State, app: string, sub: string, incoming: Entries)
    ensures
      var name, outcome := DevName(app, sub), BirthOutcome(s, app, sub, incoming);
      Step(s, BirthMsg(app, sub, incoming)) ==
      if app != "" && sub != "" && incoming != Nil then s.(devs := s.devs[name := Settle(s.init, outcome)]) else s
  {
  }

  lemma DataStep(s: State, app: string, sub: string, incoming: Entries)
    ensures
      var name := DevName(app, sub);
      Step(s, DataMsg(app, sub, incoming)) ==
      if app != "" && sub != "" && incoming != Nil && name in s.devs
      then s.(devs := s.devs[name := Settle(s.init, OnData(s.devs[name], incoming))]) else s
  {
  }

  lemma DevicesBorn(s: State, t: State)
    requires t.init && t.devs.Keys == s.devs.Keys
    requires forall n :: n in s.devs ==> t.devs[n] == PublishBirth(s.devs[n].(trace := []), true)
    ensures t == Step(s, NodeBirth)
  {
    SameDevices(Step(s, NodeBirth), t);
  }

  lemma DevicesReached(s: State, t: State, reached: set<string>)
    requires t.init == s.init && t.devs.Keys == s.devs.Keys
    requires forall n :: n in s.devs ==>
               t.devs[n] == if s.init && n in reached then PublishDeath(s.devs[n]) else s.devs[n]
    ensures t == Step(s, BusLost(reached))
  {
    SameDevices(Step(s, BusLost(reached)), t);
  }

  lemma OneReplaced(s: State, t: State, name: string, d: Dev)
    requires t.init == s.init && t.devs.Keys == s.devs.Keys + {name} && t.devs[name] == d
    requires forall n :: n in s.devs && n != name ==> t.devs[n] == s.devs[n]
    ensures t == s.(devs := s.devs[name := d])
  {
  }

  lemma SameDevices(s: State, t: State)
    requires t.init == s.init && t.devs.Keys == s.devs.Keys
    requires forall n :: n in s.devs ==> t.devs[n] == s.devs[n]
    ensures t == s
  {
  }
}
