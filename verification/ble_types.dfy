/**
 Shared vocabulary of the BLE connection providers: peripheral descriptors,
 the provider state record, the reducer actions, the outcomes of the native
 BLE manager's promises, and the ordered trace of effects a command or an
 event handler produces.
 */
module BleTypes {

  datatype Option<+T> = None | Some(value: T)

  /** How a promise of the native BLE manager settled. */
  datatype Outcome = Ok | Err

  /** The advertised name the providers look for (note the lower-case `l`). */
  const BleName: string := "SAMPlE_BLE"
  const BleServiceId: string := "5476534d-1213-1212-1212-454e544f1212"
  const BleReadCharId: string := "00105354-0000-1000-8000-00805f9b34fb"
  /** The write characteristic; only the write path, which this model leaves out, uses it. */
  const BleWriteCharId: string := "00105352-0000-1000-8000-00805f9b34fb"

  /** Both providers scan with no service filter, for 10 seconds, without duplicates. */
  const ScanSeconds: nat := 10

  /** The advertising payload; `localName` is absent when not advertised. */
  datatype Advertising = Advertising(localName: Option<string>)

  /** A discovered peripheral as the native module reports it. */
  datatype Peripheral = Peripheral(
    id: string,
    name: Option<string>,
    rssi: Option<int>,
    advertising: Option<Advertising>)

  /** The target test: a present name equal to the target name. */
  predicate IsTarget(p: Peripheral) {
    p.name == Some(BleName)
  }

  /** The provider's state record. */
  datatype BleState = BleState(
    isConnected: bool,
    isScanning: bool,
    peripherals: map<string, Peripheral>,
    connectedBle: Option<Peripheral>)

  /** The state the provider mounts with. */
  const Initial: BleState := BleState(false, false, map[], None)

  /** The reducer's actions; `Unrecognised` stands for any other action type. */
  datatype Action =
    | Scanning(on: bool)
    | Connected(peripheral: Peripheral)
    | Disconnected
    | ClearPeripherals
    | AddPeripheral(id: string, peripheral: Peripheral)
    | Unrecognised

  /** The four fields of the state record. */
  datatype Field = IsConnectedField | IsScanningField | PeripheralsField | ConnectedBleField

  /** The fields an action is allowed to write. */
  function Touches(a: Action): set<Field> {
    match a
    case Scanning(_) => {IsScanningField}
    case Connected(_) => {IsConnectedField, ConnectedBleField}
    case Disconnected => {IsConnectedField, ConnectedBleField}
    case ClearPeripherals => {PeripheralsField}
    case AddPeripheral(_, _) => {PeripheralsField}
    case Unrecognised => {}
  }

  /** `s` and `r` agree on every field outside `touched`. */
  predicate SameOutside(s: BleState, r: BleState, touched: set<Field>) {
    && (IsConnectedField !in touched ==> r.isConnected == s.isConnected)
    && (IsScanningField !in touched ==> r.isScanning == s.isScanning)
    && (PeripheralsField !in touched ==> r.peripherals == s.peripherals)
    && (ConnectedBleField !in touched ==> r.connectedBle == s.connectedBle)
  }

  /** A connected peripheral is recorded exactly when the state says connected. */
  predicate Consistent(s: BleState) {
    s.connectedBle.Some? <==> s.isConnected
  }

  /** Every registry entry is stored under its own id. */
  predicate KeyedById(s: BleState) {
    forall id :: id in s.peripherals ==> s.peripherals[id].id == id
  }

  /** Calls into the native BLE manager. */
  datatype AdapterCall =
    | Scan(serviceUuids: seq<string>, seconds: nat, allowDuplicates: bool)
    | Connect(id: string)
    | RetrieveServices(id: string)
    | StartNotification(id: string, serviceId: string, characteristicId: string)
    | Disconnect(id: string)

  /** One observable effect of a command or event handler, in program order. */
  datatype Effect =
    | Call(call: AdapterCall)
    | Dispatch(action: Action)
    | Callback(name: string)
    | StoreConnectedDevice(device: Peripheral)

  /** The actions a trace dispatches, in order. */
  function Dispatched(t: seq<Effect>): seq<Action> {
    if t == [] then []
    else (if t[0].Dispatch? then [t[0].action] else []) + Dispatched(t[1..])
  }

  /** The adapter calls a trace issues, in order. */
  function Calls(t: seq<Effect>): seq<AdapterCall> {
    if t == [] then []
    else (if t[0].Call? then [t[0].call] else []) + Calls(t[1..])
  }

  /** The names a trace passes to the caller's callback, in order. */
  function Callbacks(t: seq<Effect>): seq<string> {
    if t == [] then []
    else (if t[0].Callback? then [t[0].name] else []) + Callbacks(t[1..])
  }

  /** The devices a trace records in the external store, in order. */
  function Stores(t: seq<Effect>): seq<Peripheral> {
    if t == [] then []
    else (if t[0].StoreConnectedDevice? then [t[0].device] else []) + Stores(t[1..])
  }

  /** The filters of a trace that starts with `e`. */
  lemma FiltersCons(e: Effect, t: seq<Effect>)
    ensures Dispatched([e] + t) == (if e.Dispatch? then [e.action] else []) + Dispatched(t)
    ensures Calls([e] + t) == (if e.Call? then [e.call] else []) + Calls(t)
    ensures Callbacks([e] + t) == (if e.Callback? then [e.name] else []) + Callbacks(t)
    ensures Stores([e] + t) == (if e.StoreConnectedDevice? then [e.device] else []) + Stores(t)
  {
  }

  /** The filters of a one-effect trace. */
  lemma FiltersOne(e: Effect)
    ensures Dispatched([e]) == (if e.Dispatch? then [e.action] else [])
    ensures Calls([e]) == (if e.Call? then [e.call] else [])
    ensures Callbacks([e]) == (if e.Callback? then [e.name] else [])
    ensures Stores([e]) == (if e.StoreConnectedDevice? then [e.device] else [])
  {
  }

  lemma {:induction false} DispatchedAppend(a: seq<Effect>, b: seq<Effect>)
    ensures Dispatched(a + b) == Dispatched(a) + Dispatched(b)
    decreases |a|
  {
    if a == [] {
      assert a + b == b;
    } else {
      assert a == [a[0]] + a[1..];
      assert a + b == [a[0]] + (a[1..] + b);
      FiltersCons(a[0], a[1..]);
      FiltersCons(a[0], a[1..] + b);
      DispatchedAppend(a[1..], b);
    }
  }

  lemma {:induction false} CallsAppend(a: seq<Effect>, b: seq<Effect>)
    ensures Calls(a + b) == Calls(a) + Calls(b)
    decreases |a|
  {
    if a == [] {
      assert a + b == b;
    } else {
      assert a == [a[0]] + a[1..];
      assert a + b == [a[0]] + (a[1..] + b);
      FiltersCons(a[0], a[1..]);
      FiltersCons(a[0], a[1..] + b);
      CallsAppend(a[1..], b);
    }
  }

  lemma {:induction false} CallbacksAppend(a: seq<Effect>, b: seq<Effect>)
    ensures Callbacks(a + b) == Callbacks(a) + Callbacks(b)
    decreases |a|
  {
    if a == [] {
      assert a + b == b;
    } else {
      assert a == [a[0]] + a[1..];
      assert a + b == [a[0]] + (a[1..] + b);
      FiltersCons(a[0], a[1..]);
      FiltersCons(a[0], a[1..] + b);
      CallbacksAppend(a[1..], b);
    }
  }

  lemma {:induction false} StoresAppend(a: seq<Effect>, b: seq<Effect>)
    ensures Stores(a + b) == Stores(a) + Stores(b)
    decreases |a|
  {
    if a == [] {
      assert a + b == b;
    } else {
      assert a == [a[0]] + a[1..];
      assert a + b == [a[0]] + (a[1..] + b);
      FiltersCons(a[0], a[1..]);
      FiltersCons(a[0], a[1..] + b);
      StoresAppend(a[1..], b);
    }
  }

  /** The last descriptor in `ps` carrying `id`, if any: the reference for what
      a keyed registry should hold after the discoveries `ps`. */
  function LastWithId(ps: seq<Peripheral>, id: string): (r: Option<Peripheral>)
    ensures r.Some? ==> r.value.id == id
    decreases |ps|
  {
    if ps == [] then None
    else if ps[|ps| - 1].id == id then Some(ps[|ps| - 1])
    else LastWithId(ps[..|ps| - 1], id)
  }

  /** The upsert actions one discovery per element of `ps` dispatches. */
  function Discoveries(ps: seq<Peripheral>): (acts: seq<Action>)
    ensures |acts| == |ps|
    ensures forall i :: 0 <= i < |ps| ==> acts[i] == AddPeripheral(ps[i].id, ps[i])
  {
    seq(|ps|, i requires 0 <= i < |ps| => AddPeripheral(ps[i].id, ps[i]))
  }

  /** The elements of `ps` that carry the target name, in order. */
  function Targets(ps: seq<Peripheral>): (r: seq<Peripheral>)
    ensures forall p :: p in r ==> IsTarget(p)
    ensures forall p :: p in ps && IsTarget(p) ==> p in r
    ensures forall p :: p in r ==> p in ps
  {
    if ps == [] then []
    else (if IsTarget(ps[0]) then [ps[0]] else []) + Targets(ps[1..])
  }
}
