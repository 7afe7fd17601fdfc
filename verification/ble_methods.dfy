/**
 The second provider variant. Its reducer is a second copy of the first's
 (proved to agree with it), but discovery and connect only accept the target
 name, connect does not chain service retrieval or notification, and a
 successful connect reports the name to an optional callback and records the
 device in an external store.
 */
module BleMethods {
  import opened BleTypes
  import BleContextProvider

  /** The inline reducer. Its registry is updated in place in the app;
      here the registry is a value. */
  function Reduce(s: BleState, a: Action): (r: BleState)
    ensures SameOutside(s, r, Touches(a))
    ensures Consistent(s) ==> Consistent(r)
    ensures a.ClearPeripherals? ==> r.peripherals == map[]
    ensures a.AddPeripheral? ==> a.id in r.peripherals && r.peripherals[a.id] == a.peripheral
    ensures a.AddPeripheral? ==> forall k :: k != a.id ==> (k in r.peripherals <==> k in s.peripherals)
  {
    match a
    case Scanning(on) => s.(isScanning := on)
    case Connected(p) => s.(connectedBle := Some(p), isConnected := true)
    case Disconnected => s.(connectedBle := None, isConnected := false)
    case ClearPeripherals => s.(peripherals := map[])
    case AddPeripheral(id, p) => s.(peripherals := s.peripherals[id := p])
    case Unrecognised => s
  }

  function Run(s: BleState, acts: seq<Action>): BleState
    decreases |acts|
  {
    if acts == [] then s else Run(Reduce(s, acts[0]), acts[1..])
  }

  /** The two reducers are the same function of state and action. */
  lemma ReducersAgree(s: BleState, a: Action)
    ensures Reduce(s, a) == BleContextProvider.Reduce(s, a)
  {
  }

  /** Hence any sequence of actions ends in the same state under either. */
  lemma {:induction false} RunAgrees(s: BleState, acts: seq<Action>)
    ensures Run(s, acts) == BleContextProvider.Run(s, acts)
    decreases |acts|
  {
    if acts != [] {
      ReducersAgree(s, acts[0]);
      RunAgrees(Reduce(s, acts[0]), acts[1..]);
    }
  }

  /** The display name: a non-empty advertised local name wins, otherwise the
      peripheral's own name (possibly absent). */
  function GetPeripheralName(p: Peripheral): (r: Option<string>)
    ensures r == p.name || (r.Some? && r.value != "" && p.advertising.Some? && p.advertising.value.localName == r)
    ensures p.advertising.Some? && p.advertising.value.localName.Some? && p.advertising.value.localName.value != ""
      ==> r == p.advertising.value.localName
    ensures p.advertising.None? ==> r == p.name
  {
    match p.advertising
    case Some(adv) =>
      (match adv.localName
       case Some(n) => if n != "" then Some(n) else p.name
       case None => p.name)
    case None => p.name
  }

  /** Discovery upserts a peripheral only when its own name is the target name. */
  function HandleDiscoverPeripheral(p: Peripheral): (t: seq<Effect>)
    ensures Dispatched(t) == (if IsTarget(p) then [AddPeripheral(p.id, p)] else [])
    ensures Calls(t) == []
    ensures Callbacks(t) == [] && Stores(t) == []
    ensures !IsTarget(p) ==> t == []
  {
    if IsTarget(p) then [Dispatch(AddPeripheral(p.id, p))] else []
  }

  /** What a resolved connect does: `connected`, then the callback with the
      peripheral's name, then the store update. */
  function OnConnected(q: Peripheral, hasCallback: bool): (t: seq<Effect>)
    requires IsTarget(q)
    ensures Dispatched(t) == [Connected(q)]
    ensures Calls(t) == []
    ensures Callbacks(t) == (if hasCallback then [BleName] else [])
    ensures Stores(t) == [q] && t[|t| - 1] == StoreConnectedDevice(q)
    ensures |t| >= 2 && t[0] == Dispatch(Connected(q)) && (hasCallback ==> t[1] == Callback(BleName))
  {
    var store := [StoreConnectedDevice(q)];
    var callback: seq<Effect> := if hasCallback then [Callback(q.name.value)] else [];
    FiltersOne(StoreConnectedDevice(q));
    FiltersOne(Callback(q.name.value));
    assert Dispatched(callback) == [] && Calls(callback) == [];
    assert Callbacks(callback) == (if hasCallback then [BleName] else []);
    DispatchedAppend(callback, store);
    CallsAppend(callback, store);
    CallbacksAppend(callback, store);
    StoresAppend(callback, store);
    assert Stores(callback) == [];
    FiltersCons(Dispatch(Connected(q)), callback + store);
    [Dispatch(Connected(q))] + (callback + store)
  }

  /** The connect command: nothing at all unless a target-named peripheral is
      given; otherwise one connect call, and on success `connected`, then the
      callback with the name, then the store update. */
  function ConnectBle(p: Option<Peripheral>, hasCallback: bool, connect: Outcome): (t: seq<Effect>)
    ensures !(p.Some? && IsTarget(p.value)) ==> t == []
    ensures p.Some? && IsTarget(p.value) ==> Calls(t) == [Connect(p.value.id)]
    ensures Dispatched(t) == (if p.Some? && IsTarget(p.value) && connect == Ok then [Connected(p.value)] else [])
    ensures Callbacks(t) == (if p.Some? && IsTarget(p.value) && connect == Ok && hasCallback then [BleName] else [])
    ensures Stores(t) == (if p.Some? && IsTarget(p.value) && connect == Ok then [p.value] else [])
    ensures p.Some? && IsTarget(p.value) ==> t[0] == Call(Connect(p.value.id))
    ensures p.Some? && IsTarget(p.value) && connect == Ok ==> t[|t| - 1] == StoreConnectedDevice(p.value)
    ensures p.Some? && IsTarget(p.value) && connect == Ok ==>
      |t| >= 3 && t[1] == Dispatch(Connected(p.value)) && (hasCallback ==> t[2] == Callback(BleName))
  {
    if p.None? || !IsTarget(p.value) then []
    else
      var afterConnect: seq<Effect> := if connect == Err then [] else OnConnected(p.value, hasCallback);
      FiltersCons(Call(Connect(p.value.id)), afterConnect);
      assert Dispatched(afterConnect) == (if connect == Ok then [Connected(p.value)] else []);
      [Call(Connect(p.value.id))] + afterConnect
  }

  // ---------------------------------------------------------------------
  // The provider as a state machine over commands and events
  // ---------------------------------------------------------------------

  /** An input to the provider, with the outcomes of the promises it awaits.
      The scan command, the stop-scan handler and the disconnect handler are
      the same as the first variant's. */
  datatype Event =
    | StartScanCmd(scan: Outcome)
    | ConnectCmd(target: Option<Peripheral>, hasCallback: bool, connect: Outcome)
    | DiscoverEvent(p: Peripheral)
    | StopScanEvent
    | DisconnectEvent(id: string)

  function Handle(s: BleState, e: Event): seq<Effect> {
    match e
    case StartScanCmd(scan) => BleContextProvider.StartScan(s, scan)
    case ConnectCmd(p, cb, c) => ConnectBle(p, cb, c)
    case DiscoverEvent(p) => HandleDiscoverPeripheral(p)
    case StopScanEvent => BleContextProvider.HandleStopScan()
    case DisconnectEvent(id) => BleContextProvider.HandleDisconnectedPeripheral(id)
  }

  function Step(s: BleState, e: Event): BleState {
    Run(s, Dispatched(Handle(s, e)))
  }

  function Steps(s: BleState, es: seq<Event>): BleState
    decreases |es|
  {
    if es == [] then s else Steps(Step(s, es[0]), es[1..])
  }

  /** Every registry entry carries the target name. */
  predicate OnlyTargets(s: BleState) {
    forall id :: id in s.peripherals ==> IsTarget(s.peripherals[id])
  }

  /** The provider's invariant: consistent connection fields, a registry keyed
      by id holding only target-named peripherals, and a target-named
      connected peripheral. */
  predicate Inv(s: BleState) {
    && Consistent(s)
    && KeyedById(s)
    && OnlyTargets(s)
    && (s.connectedBle.Some? ==> IsTarget(s.connectedBle.value))
  }

  /** The state effect of each input, in terms of the first variant's run. */
  lemma StepAsFirst(s: BleState, e: Event)
    ensures Step(s, e) == BleContextProvider.Run(s, Dispatched(Handle(s, e)))
  {
    RunAgrees(s, Dispatched(Handle(s, e)));
  }

  lemma StepKeepsInv(s: BleState, e: Event)
    requires Inv(s)
    ensures Inv(Step(s, e))
  {
    StepAsFirst(s, e);
    match e
    case StartScanCmd(scan) =>
      BleContextProvider.StartScanEffect(s, scan);
      BleContextProvider.RunKeepsConsistent(s, Dispatched(Handle(s, e)));
    case ConnectCmd(p, cb, c) =>
      if p.Some? {
        BleContextProvider.RunOne(s, Connected(p.value));
      }
    case DiscoverEvent(p) =>
      BleContextProvider.RunOne(s, AddPeripheral(p.id, p));
    case StopScanEvent =>
      BleContextProvider.RunOne(s, Scanning(false));
    case DisconnectEvent(id) =>
      BleContextProvider.RunOne(s, Disconnected);
  }

  /** Every run of the provider from a state satisfying the invariant keeps it. */
  lemma {:induction false} StepsKeepInv(s: BleState, es: seq<Event>)
    requires Inv(s)
    ensures Inv(Steps(s, es))
    decreases |es|
  {
    if es != [] {
      StepKeepsInv(s, es[0]);
      StepsKeepInv(Step(s, es[0]), es[1..]);
    }
  }

  /** From mount, whatever happens, the registry never holds a peripheral
      whose name is not the target name. */
  lemma FromMountOnlyTargets(es: seq<Event>)
    ensures Inv(Steps(Initial, es))
    ensures OnlyTargets(Steps(Initial, es))
  {
    StepsKeepInv(Initial, es);
  }

  /** Discovery of a non-target (other name or no name) changes nothing; a
      target is upserted under its id. */
  lemma DiscoveryFilter(s: BleState, p: Peripheral)
    ensures !IsTarget(p) ==> Step(s, DiscoverEvent(p)) == s
    ensures IsTarget(p) ==> Step(s, DiscoverEvent(p)) == s.(peripherals := s.peripherals[p.id := p])
  {
    StepAsFirst(s, DiscoverEvent(p));
    BleContextProvider.RunOne(s, AddPeripheral(p.id, p));
  }

  /** The filter reads the peripheral's own name, not the resolved display
      name: a peripheral advertising the target only as its local name is
      dropped. */
  lemma FilterIgnoresLocalName(s: BleState)
    ensures var p := Peripheral("A", None, None, Some(Advertising(Some(BleName))));
      && GetPeripheralName(p) == Some(BleName)
      && Step(s, DiscoverEvent(p)) == s
  {
  }

  function DiscoverEvents(ps: seq<Peripheral>): (es: seq<Event>)
    ensures |es| == |ps|
    ensures forall i :: 0 <= i < |ps| ==> es[i] == DiscoverEvent(ps[i])
  {
    seq(|ps|, i requires 0 <= i < |ps| => DiscoverEvent(ps[i]))
  }

  /** A run of discovery events is the first variant's upserts of just the
      target-named peripherals. */
  lemma {:induction false} DiscoveriesAreTargetUpserts(s: BleState, ps: seq<Peripheral>)
    ensures Steps(s, DiscoverEvents(ps)) == BleContextProvider.Run(s, Discoveries(Targets(ps)))
    decreases |ps|
  {
    if ps == [] {
    } else {
      var p := ps[0];
      var head := if IsTarget(p) then [p] else [];
      assert DiscoverEvents(ps)[1..] == DiscoverEvents(ps[1..]);
      assert Targets(ps) == head + Targets(ps[1..]);
      assert Discoveries(Targets(ps)) == Discoveries(head) + Discoveries(Targets(ps[1..]));
      BleContextProvider.RunAppend(s, Discoveries(head), Discoveries(Targets(ps[1..])));
      DiscoveryFilter(s, p);
      BleContextProvider.RunOne(s, AddPeripheral(p.id, p));
      assert BleContextProvider.Run(s, Discoveries(head)) == Step(s, DiscoverEvent(p));
      DiscoveriesAreTargetUpserts(Step(s, DiscoverEvent(p)), ps[1..]);
    }
  }

  /** A scan cycle's registry: after an accepted scan and a run of discovery
      events, the registry holds exactly the ids of target-named discoveries,
      each once, with the latest such descriptor. */
  lemma ScanCycleRegistry(s: BleState, ps: seq<Peripheral>)
    requires !s.isScanning
    ensures var reg := Steps(Step(s, StartScanCmd(Ok)), DiscoverEvents(ps)).peripherals;
      && (forall id :: id in reg <==> LastWithId(Targets(ps), id).Some?)
      && (forall id :: id in reg ==> reg[id] == LastWithId(Targets(ps), id).value)
  {
    var mid := Step(s, StartScanCmd(Ok));
    StepAsFirst(s, StartScanCmd(Ok));
    BleContextProvider.StartScanEffect(s, Ok);
    DiscoveriesAreTargetUpserts(mid, ps);
    BleContextProvider.RediscoveryKeepsLatest(mid, Targets(ps));
  }

  /** Connecting to a missing, unnamed or differently named peripheral issues
      nothing and changes nothing. */
  lemma ConnectNonTargetInert(s: BleState, p: Option<Peripheral>, hasCallback: bool, connect: Outcome)
    requires !(p.Some? && IsTarget(p.value))
    ensures Handle(s, ConnectCmd(p, hasCallback, connect)) == []
    ensures Step(s, ConnectCmd(p, hasCallback, connect)) == s
  {
  }

  /** Connecting to a target: success commits the connection and reports the
      target name to the callback; failure changes nothing and reports nothing. */
  lemma ConnectOutcome(s: BleState, p: Peripheral, hasCallback: bool, connect: Outcome)
    requires IsTarget(p)
    ensures connect == Ok ==>
      var r := Step(s, ConnectCmd(Some(p), hasCallback, connect));
      r.isConnected && r.connectedBle == Some(p) && r.isScanning == s.isScanning && r.peripherals == s.peripherals
    ensures connect == Err ==> Step(s, ConnectCmd(Some(p), hasCallback, connect)) == s
    ensures connect == Err ==> Callbacks(Handle(s, ConnectCmd(Some(p), hasCallback, connect))) == []
  {
    StepAsFirst(s, ConnectCmd(Some(p), hasCallback, connect));
    BleContextProvider.RunOne(s, Connected(p));
  }

  /** The scan command behaves under this reducer as under the first. */
  lemma StartScanEffect(s: BleState, scan: Outcome)
    ensures s.isScanning ==> Step(s, StartScanCmd(scan)) == s
    ensures !s.isScanning ==>
      var r := Step(s, StartScanCmd(scan));
      && r.peripherals == map[]
      && r.isScanning == (scan == Ok)
      && r.isConnected == s.isConnected
      && r.connectedBle == s.connectedBle
  {
    StepAsFirst(s, StartScanCmd(scan));
    BleContextProvider.StartScanEffect(s, scan);
  }

  /** The stop-scan event clears `isScanning`; the disconnect event clears the
      connection; neither touches anything else. */
  lemma StopAndDisconnectEvents(s: BleState, id: string)
    ensures Step(s, StopScanEvent) == s.(isScanning := false)
    ensures Step(s, DisconnectEvent(id)) == s.(isConnected := false, connectedBle := None)
  {
    StepAsFirst(s, StopScanEvent);
    StepAsFirst(s, DisconnectEvent(id));
    BleContextProvider.RunOne(s, Scanning(false));
    BleContextProvider.RunOne(s, Disconnected);
  }

  lemma ScenarioTargets(a1: Peripheral, a2: Peripheral, b: Peripheral)
    requires IsTarget(a1) && IsTarget(a2) && !IsTarget(b)
    ensures Targets([a1, a2, b]) == [a1, a2]
  {
    assert [a1, a2, b][1..] == [a2, b];
    assert [a2, b][1..] == [b];
    assert Targets([b]) == [] by {
      assert [b][1..] == [];
    }
    assert Targets([a2, b]) == [a2];
  }

  /** Rediscovery of one id leaves one entry holding the latest descriptor,
      and a differently named peripheral never enters. */
  lemma RediscoveryScenario(a1: Peripheral, a2: Peripheral, b: Peripheral)
    requires a1 == Peripheral("A", Some(BleName), None, None)
    requires a2 == Peripheral("A", Some(BleName), Some(-50), None)
    requires b == Peripheral("B", Some("Other"), None, None)
    ensures var reg := Steps(Initial, DiscoverEvents([a1, a2, b])).peripherals;
      reg.Keys == {"A"} && reg["A"] == a2
  {
    DiscoveriesAreTargetUpserts(Initial, [a1, a2, b]);
    ScenarioTargets(a1, a2, b);
    assert Discoveries([a1, a2]) == [AddPeripheral("A", a1), AddPeripheral("A", a2)];
    BleContextProvider.RunTwo(Initial, AddPeripheral("A", a1), AddPeripheral("A", a2));
    var reg := BleContextProvider.Run(Initial, Discoveries([a1, a2])).peripherals;
    assert reg == map["A" := a2];
  }
}
