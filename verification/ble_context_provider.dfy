/**
 The first provider variant: a pure reducer over an immutable registry, a
 guarded scan command, a connect command that commits on the connect promise
 and then chains service retrieval and notification, an explicit disconnect,
 and three radio event handlers. Discovery is not filtered by name here.
 */
module BleContextProvider {
  import opened BleTypes
  import Permissions

  /** The provider's reducer. */
  function Reduce(s: BleState, a: Action): (r: BleState)
    ensures SameOutside(s, r, Touches(a))
    ensures a.Scanning? ==> r.isScanning == a.on
    ensures a.Connected? ==> r.isConnected && r.connectedBle == Some(a.peripheral)
    ensures a.Disconnected? ==> !r.isConnected && r.connectedBle == None
    ensures a.ClearPeripherals? ==> r.peripherals == map[]
    ensures a.AddPeripheral? ==> r.peripherals == s.peripherals[a.id := a.peripheral]
    ensures Consistent(s) ==> Consistent(r)
  {
    match a
    case Scanning(on) => s.(isScanning := on)
    case Connected(p) => s.(connectedBle := Some(p), isConnected := true)
    case Disconnected => s.(connectedBle := None, isConnected := false)
    case ClearPeripherals => s.(peripherals := map[])
    case AddPeripheral(id, p) => s.(peripherals := s.peripherals[id := p])
    case Unrecognised => s
  }

  /** The state after dispatching `acts` in order. */
  function Run(s: BleState, acts: seq<Action>): BleState
    decreases |acts|
  {
    if acts == [] then s else Run(Reduce(s, acts[0]), acts[1..])
  }

  lemma {:induction false} RunAppend(s: BleState, a: seq<Action>, b: seq<Action>)
    ensures Run(s, a + b) == Run(Run(s, a), b)
    decreases |a|
  {
    if a == [] {
      assert a + b == b;
    } else {
      assert (a + b)[1..] == a[1..] + b;
      RunAppend(Reduce(s, a[0]), a[1..], b);
    }
  }

  /** Running a single action is applying the reducer once. */
  lemma RunOne(s: BleState, a: Action)
    ensures Run(s, [a]) == Reduce(s, a)
  {
  }

  /** Running two actions applies the reducer twice, in order. */
  lemma RunTwo(s: BleState, a: Action, b: Action)
    ensures Run(s, [a, b]) == Reduce(Reduce(s, a), b)
  {
    assert [a, b][1..] == [b];
    assert Run(s, [a, b]) == Run(Reduce(s, a), [b]);
  }

  /** Any sequence of actions from a consistent state keeps `connectedBle`
      present exactly when `isConnected`. */
  lemma {:induction false} RunKeepsConsistent(s: BleState, acts: seq<Action>)
    requires Consistent(s)
    ensures Consistent(Run(s, acts))
    decreases |acts|
  {
    if acts != [] {
      RunKeepsConsistent(Reduce(s, acts[0]), acts[1..]);
    }
  }

  /** From the mount state every action sequence keeps the state consistent. */
  lemma InitialRunConsistent(acts: seq<Action>)
    ensures Consistent(Run(Initial, acts))
  {
    RunKeepsConsistent(Initial, acts);
  }

  /** Upserting the same descriptor twice equals upserting it once, and an
      upsert adds at most one entry, none when the id is already known. */
  lemma UpsertIdempotent(s: BleState, id: string, p: Peripheral)
    ensures Reduce(Reduce(s, AddPeripheral(id, p)), AddPeripheral(id, p)) == Reduce(s, AddPeripheral(id, p))
    ensures |Reduce(s, AddPeripheral(id, p)).peripherals| <= |s.peripherals| + 1
    ensures id in s.peripherals ==> |Reduce(s, AddPeripheral(id, p)).peripherals| == |s.peripherals|
    ensures forall k :: k != id && k in s.peripherals ==> Reduce(s, AddPeripheral(id, p)).peripherals[k] == s.peripherals[k]
  {
  }

  /** Disconnecting twice equals disconnecting once. */
  lemma DisconnectedIdempotent(s: BleState)
    ensures Reduce(Reduce(s, Disconnected), Disconnected) == Reduce(s, Disconnected)
  {
  }

  /** After a sequence of discoveries each id maps to the latest descriptor
      carrying it, and ids never discovered keep their earlier entry. */
  lemma {:induction false} RediscoveryKeepsLatest(s: BleState, ps: seq<Peripheral>)
    ensures var reg := Run(s, Discoveries(ps)).peripherals;
      forall id :: (id in reg <==> (id in s.peripherals || LastWithId(ps, id).Some?))
    ensures var reg := Run(s, Discoveries(ps)).peripherals;
      forall id :: id in reg ==> reg[id] == (if LastWithId(ps, id).Some? then LastWithId(ps, id).value else s.peripherals[id])
    ensures Run(s, Discoveries(ps)).isScanning == s.isScanning
    ensures Run(s, Discoveries(ps)).isConnected == s.isConnected
    ensures Run(s, Discoveries(ps)).connectedBle == s.connectedBle
    decreases |ps|
  {
    if ps != [] {
      var n := |ps| - 1;
      var front := ps[..n];
      assert Discoveries(ps) == Discoveries(front) + [AddPeripheral(ps[n].id, ps[n])];
      RunAppend(s, Discoveries(front), [AddPeripheral(ps[n].id, ps[n])]);
      RediscoveryKeepsLatest(s, front);
      var mid := Run(s, Discoveries(front));
      assert Run(s, Discoveries(ps)) == Reduce(mid, AddPeripheral(ps[n].id, ps[n]));
      forall id
        ensures LastWithId(ps, id) == (if ps[n].id == id then Some(ps[n]) else LastWithId(front, id))
      {
      }
    }
  }

  /** A scan cycle's registry: the discoveries after a clear are exactly the
      registry, each id once, holding its latest descriptor. */
  lemma ScanCycleRegistry(s: BleState, ps: seq<Peripheral>)
    ensures var reg := Run(s, [ClearPeripherals] + Discoveries(ps)).peripherals;
      && (forall id :: id in reg <==> LastWithId(ps, id).Some?)
      && (forall id :: id in reg ==> reg[id] == LastWithId(ps, id).value)
  {
    RunAppend(s, [ClearPeripherals], Discoveries(ps));
    RediscoveryKeepsLatest(Reduce(s, ClearPeripherals), ps);
  }

  // ---------------------------------------------------------------------
  // Commands and event handlers
  // ---------------------------------------------------------------------

  /** The scan command: nothing while a scan runs; otherwise the registry is
      cleared before the scan call, and `scanning` is dispatched only when the
      scan promise resolves. */
  function StartScan(s: BleState, scan: Outcome): (t: seq<Effect>)
    ensures s.isScanning ==> t == []
    ensures !s.isScanning ==> Calls(t) == [Scan([], ScanSeconds, false)]
    ensures !s.isScanning ==> |t| >= 2 && t[0] == Dispatch(ClearPeripherals) && t[1] == Call(Scan([], ScanSeconds, false))
    ensures !s.isScanning ==> Dispatched(t) == [ClearPeripherals] + (if scan == Ok then [Scanning(true)] else [])
    ensures Scanning(true) in Dispatched(t) <==> !s.isScanning && scan == Ok
    ensures Callbacks(t) == [] && Stores(t) == []
  {
    if s.isScanning then []
    else
      var tail := if scan == Ok then [Dispatch(Scanning(true))] else [];
      FiltersCons(Call(Scan([], ScanSeconds, false)), tail);
      FiltersCons(Dispatch(ClearPeripherals), [Call(Scan([], ScanSeconds, false))] + tail);
      [Dispatch(ClearPeripherals)] + ([Call(Scan([], ScanSeconds, false))] + tail)
  }

  /** What follows a resolved connect: `connected` is dispatched, services
      are retrieved, and notification is started once they resolve. */
  function AfterConnect(p: Peripheral, services: Outcome): (t: seq<Effect>)
    ensures Dispatched(t) == [Connected(p)]
    ensures Calls(t) == [RetrieveServices(p.id)] + (if services == Ok then [StartNotification(p.id, BleServiceId, BleReadCharId)] else [])
    ensures |t| >= 2 && t[0] == Dispatch(Connected(p)) && t[1] == Call(RetrieveServices(p.id))
    ensures Callbacks(t) == [] && Stores(t) == []
  {
    var notification: seq<Effect> := if services == Err then [] else [Call(StartNotification(p.id, BleServiceId, BleReadCharId))];
    FiltersOne(Call(StartNotification(p.id, BleServiceId, BleReadCharId)));
    assert Calls(notification) == (if services == Ok then [StartNotification(p.id, BleServiceId, BleReadCharId)] else []);
    FiltersCons(Call(RetrieveServices(p.id)), notification);
    FiltersCons(Dispatch(Connected(p)), [Call(RetrieveServices(p.id))] + notification);
    [Dispatch(Connected(p))] + ([Call(RetrieveServices(p.id))] + notification)
  }

  /** The connect command: `connected` is dispatched as soon as the connect
      promise resolves; service retrieval and then notification follow, and
      their outcomes dispatch nothing. The notification outcome `notify` is
      only logged by the app, so no effect depends on it. */
  function ConnectBle(p: Peripheral, connect: Outcome, services: Outcome, notify: Outcome): (t: seq<Effect>)
    ensures Calls(t) == [Connect(p.id)]
      + (if connect == Ok
         then [RetrieveServices(p.id)] + (if services == Ok then [StartNotification(p.id, BleServiceId, BleReadCharId)] else [])
         else [])
    ensures Dispatched(t) == (if connect == Ok then [Connected(p)] else [])
    ensures RetrieveServices(p.id) in Calls(t) <==> connect == Ok
    ensures StartNotification(p.id, BleServiceId, BleReadCharId) in Calls(t) <==> connect == Ok && services == Ok
    ensures connect == Ok ==> |t| >= 3 && t[1] == Dispatch(Connected(p)) && t[2] == Call(RetrieveServices(p.id))
    ensures Callbacks(t) == [] && Stores(t) == []
  {
    var afterConnect := if connect == Err then [] else AfterConnect(p, services);
    FiltersCons(Call(Connect(p.id)), afterConnect);
    [Call(Connect(p.id))] + afterConnect
  }

  /** The disconnect command: `disconnected` only when the promise resolves. */
  function DisconnectBle(id: string, disconnect: Outcome): (t: seq<Effect>)
    ensures Calls(t) == [Disconnect(id)]
    ensures Dispatched(t) == (if disconnect == Ok then [Disconnected] else [])
    ensures t[0] == Call(Disconnect(id))
    ensures disconnect == Ok ==> t[|t| - 1] == Dispatch(Disconnected)
    ensures Callbacks(t) == [] && Stores(t) == []
  {
    var tail := if disconnect == Ok then [Dispatch(Disconnected)] else [];
    FiltersCons(Call(Disconnect(id)), tail);
    [Call(Disconnect(id))] + tail
  }

  /** Every discovered peripheral is upserted under its id, whatever its name. */
  function HandleDiscoverPeripheral(p: Peripheral): (t: seq<Effect>)
    ensures Dispatched(t) == [AddPeripheral(p.id, p)]
    ensures Calls(t) == []
    ensures Callbacks(t) == [] && Stores(t) == []
  {
    [Dispatch(AddPeripheral(p.id, p))]
  }

  /** The stop-scan event only clears `isScanning`. */
  function HandleStopScan(): (t: seq<Effect>)
    ensures Dispatched(t) == [Scanning(false)]
    ensures Calls(t) == []
    ensures Callbacks(t) == [] && Stores(t) == []
  {
    [Dispatch(Scanning(false))]
  }

  /** The disconnect event ignores which peripheral it names. */
  function HandleDisconnectedPeripheral(id: string): (t: seq<Effect>)
    ensures Dispatched(t) == [Disconnected]
    ensures Calls(t) == []
    ensures Callbacks(t) == [] && Stores(t) == []
  {
    [Dispatch(Disconnected)]
  }

  /** The start-up sequence: the permission request, then enabling the radio,
      then starting the manager without its alert. */
  function InitBle(os: string, version: int, reply: Permissions.Reply): (steps: seq<Permissions.InitStep>)
    ensures Permissions.RequestBlePermissions(os, version, reply).requested ==>
      steps == [Permissions.RequestPermissions(Permissions.Requested), Permissions.EnableBluetooth, Permissions.StartManager(false)]
    ensures !Permissions.RequestBlePermissions(os, version, reply).requested ==>
      steps == [Permissions.EnableBluetooth, Permissions.StartManager(false)]
  {
    Permissions.InitBle(os, version, reply) + [Permissions.StartManager(false)]
  }

  // ---------------------------------------------------------------------
  // The provider as a state machine over commands and events
  // ---------------------------------------------------------------------

  /** An input to the provider, with the outcomes of the promises it awaits
      (`notify` included, although only a log line depends on it). */
  datatype Event =
    | StartScanCmd(scan: Outcome)
    | ConnectCmd(p: Peripheral, connect: Outcome, services: Outcome, notify: Outcome)
    | DisconnectCmd(id: string, disconnect: Outcome)
    | DiscoverEvent(p: Peripheral)
    | StopScanEvent
    | DisconnectEvent(id: string)

  function Handle(s: BleState, e: Event): seq<Effect> {
    match e
    case StartScanCmd(scan) => StartScan(s, scan)
    case ConnectCmd(p, c, sv, n) => ConnectBle(p, c, sv, n)
    case DisconnectCmd(id, d) => DisconnectBle(id, d)
    case DiscoverEvent(p) => HandleDiscoverPeripheral(p)
    case StopScanEvent => HandleStopScan()
    case DisconnectEvent(id) => HandleDisconnectedPeripheral(id)
  }

  /** The state after one input, its promises settled. */
  function Step(s: BleState, e: Event): BleState {
    Run(s, Dispatched(Handle(s, e)))
  }

  function Steps(s: BleState, es: seq<Event>): BleState
    decreases |es|
  {
    if es == [] then s else Steps(Step(s, es[0]), es[1..])
  }

  /** The provider's invariant: consistent connection fields and a registry
      keyed by peripheral id. */
  predicate Inv(s: BleState) {
    Consistent(s) && KeyedById(s)
  }

  lemma StepKeepsInv(s: BleState, e: Event)
    requires Inv(s)
    ensures Inv(Step(s, e))
  {
    match e
    case StartScanCmd(scan) =>
      StartScanEffect(s, scan);
    case ConnectCmd(p, c, sv, n) =>
      RunOne(s, Connected(p));
    case DisconnectCmd(id, d) =>
      RunOne(s, Disconnected);
    case DiscoverEvent(p) =>
      RunOne(s, AddPeripheral(p.id, p));
    case StopScanEvent =>
      RunOne(s, Scanning(false));
    case DisconnectEvent(id) =>
      RunOne(s, Disconnected);
  }

  /** Every run of the provider from mount keeps the invariant. */
  lemma {:induction false} StepsKeepInv(s: BleState, es: seq<Event>)
    requires Inv(s)
    ensures Inv(Steps(s, es))
    decreases |es|
  {
    if es != [] {
      StepKeepsInv(s, es[0]);
      StepsKeepInv(Step(s, es[0]), es[1..]);
    }
  }

  /** The scan command's effect on the state: a no-op while scanning;
      otherwise the registry ends empty, `isScanning` ends true exactly when
      the scan was accepted, and the connection fields are untouched. */
  lemma StartScanEffect(s: BleState, scan: Outcome)
    ensures s.isScanning ==> Step(s, StartScanCmd(scan)) == s
    ensures !s.isScanning ==>
      var r := Step(s, StartScanCmd(scan));
      && r.peripherals == map[]
      && r.isScanning == (scan == Ok)
      && r.isConnected == s.isConnected
      && r.connectedBle == s.connectedBle
  {
    RunOne(s, ClearPeripherals);
    RunTwo(s, ClearPeripherals, Scanning(true));
  }

  /** Two scan commands in a row issue one scan call when the first is
      accepted (none when already scanning), two when it is rejected. */
  lemma ScanTwice(s: BleState, first: Outcome, second: Outcome)
    ensures var mid := Step(s, StartScanCmd(first));
      |Calls(StartScan(s, first) + StartScan(mid, second))|
        == (if s.isScanning then 0 else if first == Ok then 1 else 2)
  {
    var mid := Step(s, StartScanCmd(first));
    CallsAppend(StartScan(s, first), StartScan(mid, second));
    StartScanEffect(s, first);
  }

  /** A failed connect leaves the state unchanged. */
  lemma ConnectFailureUnchanged(s: BleState, p: Peripheral, services: Outcome, notify: Outcome)
    ensures Step(s, ConnectCmd(p, Err, services, notify)) == s
  {
  }

  /** A resolved connect commits the connection whatever the later service
      and notification outcomes, and leaves scanning and the registry alone. */
  lemma ConnectSuccessCommits(s: BleState, p: Peripheral, services: Outcome, notify: Outcome)
    ensures var r := Step(s, ConnectCmd(p, Ok, services, notify));
      && r.isConnected
      && r.connectedBle == Some(p)
      && r.isScanning == s.isScanning
      && r.peripherals == s.peripherals
    ensures Step(s, ConnectCmd(p, Ok, services, notify)) == Step(s, ConnectCmd(p, Ok, Ok, Ok))
  {
    RunOne(s, Connected(p));
  }

  /** The disconnect event always ends disconnected, and it ends in the same
      state whether or not an explicit disconnect, successful or not, came first. */
  lemma DisconnectEventAuthoritative(s: BleState, id: string, other: string, d: Outcome)
    ensures !Step(s, DisconnectEvent(id)).isConnected
    ensures Step(s, DisconnectEvent(id)).connectedBle == None
    ensures Step(Step(s, DisconnectCmd(other, d)), DisconnectEvent(id)) == Step(s, DisconnectEvent(id))
  {
    RunOne(s, Disconnected);
    RunOne(Step(s, DisconnectCmd(other, d)), Disconnected);
  }

  /** Discovery is unfiltered: any peripheral, whatever its name, is upserted. */
  lemma DiscoveryUnfiltered(s: BleState, p: Peripheral)
    ensures Step(s, DiscoverEvent(p)).peripherals == s.peripherals[p.id := p]
    ensures p.id in Step(s, DiscoverEvent(p)).peripherals
  {
    RunOne(s, AddPeripheral(p.id, p));
  }
}
