# BLE connection provider — a Dafny model

This project models the connection state machine of a React Native app that talks to one
Bluetooth Low Energy peripheral named `SAMPlE_BLE`. The app has two variants of the provider:

- **`BleContextProvider`** (`ble_context_provider.dfy`) is the first variant. It has a pure reducer over
  a record `{isConnected, isScanning, peripherals, connectedBle}`. It also has a scan command
  guarded by `isScanning`, a connect command that chains service retrieval and notification, a
  disconnect command, and handlers for three radio events. It does not filter discovery by name.
- **`BleMethods`** (`ble_methods.dfy`) is the second variant. Its reducer is a second copy of the
  first. Read with function-scoped variables (see `BleMethods.Reduce` under "Left out"), the model
  proves the two agree. Discovery and connect only accept a peripheral whose
  own `name` is the target name. Connect chains nothing after the connect promise. On success it
  reports the name to an optional callback and records the device in an external store.
- **`Permissions`** (`permissions.dfy`) is the start-up permission gate and the start-up order:
  first the gate, then enabling the radio.
- **`BleTypes`** (`ble_types.dfy`) holds the shared data: peripheral descriptors, the state record,
  the reducer actions, and the outcomes of native promises (`Ok`/`Err`). It also holds the ordered
  trace of effects a command produces: adapter calls, dispatches, callbacks and store updates.

Each command or event handler is a pure function. It takes the current state and the outcomes of
the promises it awaits, and returns its effect trace. The resulting state is the reducer folded
over the dispatched actions (`Run`). The model treats each input, together with its settled
promises, as one step (`Step`), and a run of inputs as a sequence of steps (`Steps`).

The model follows the code as written, including where the app's evident intent differs:
- The first variant does not filter discovery by name.
- The first variant commits `connected` as soon as `connect` resolves, before services and
  notification. A later failure does not undo it. The second variant does not retrieve services
  or start notification at all.
- There is no single phase. `isScanning` and `isConnected` are independent booleans, and both can
  be true at once.
- A rejected scan or connect is only logged. It is not reported to the caller.

## Model

| member | source | states |
|---|---|---|
| BleContextProvider.Reduce | BleContextProvider.tsx:26-61 | each action writes only the fields it names (`Touches`) and leaves every other field unchanged; `scanning` sets `isScanning` to its payload; `connected` records the payload peripheral and sets `isConnected`; `disconnected` clears both; `clearPeripherals` empties the registry; `addPeripheral` updates the registry at the given id; an unknown action changes nothing; every action preserves "`connectedBle` present iff `isConnected`" |
| BleContextProvider.RunKeepsConsistent | BleContextProvider.tsx:26-61 | any sequence of actions from a consistent state ends in a consistent state |
| BleContextProvider.InitialRunConsistent | BleContextProvider.tsx:18-23 | from the mount state, every action sequence keeps `connectedBle` present iff `isConnected` |
| BleContextProvider.UpsertIdempotent | BleContextProvider.tsx:51-57 | upserting the same id and descriptor twice equals upserting once; an upsert adds at most one entry, and none when the id is already present; other entries are unchanged |
| BleContextProvider.DisconnectedIdempotent | BleContextProvider.tsx:39-44 | applying `disconnected` twice equals applying it once |
| BleContextProvider.RediscoveryKeepsLatest | BleContextProvider.tsx:51-57 | after any run of discoveries, an id is in the registry iff it was there before or was discovered; its entry is the last discovered descriptor with that id (reference `LastWithId`); the other three fields are unchanged |
| BleContextProvider.ScanCycleRegistry | BleContextProvider.tsx:45-57 | after a clear and a run of discoveries, the registry holds exactly the discovered ids, one entry each, with the latest descriptor |
| BleContextProvider.StartScan | BleContextProvider.tsx:76-91 | no effect at all while scanning; otherwise the registry clear is dispatched before the single scan call (no service filter, 10 seconds, no duplicates); `scanning(true)` is dispatched iff the scan was accepted; no callback or store update |
| BleContextProvider.AfterConnect | BleContextProvider.tsx:95-109 | after a resolved connect, `connected` is dispatched first, then services are retrieved; notification on the fixed service and read characteristic starts only if services resolve; nothing else is dispatched, and there is no callback or store update |
| BleContextProvider.ConnectBle | BleContextProvider.tsx:93-114 | the adapter calls are exactly `connect` for the peripheral's id, then (iff connect resolves) service retrieval for that id, then (iff services also resolve) notification on the fixed service and read characteristic; `connected` is dispatched iff connect resolves, right after it and before service retrieval; no callback or store update |
| BleContextProvider.DisconnectBle | BleContextProvider.tsx:145-154 | one disconnect call for the given id, as the first effect; `disconnected` is dispatched iff it resolves, and then after the call, as the last effect; no callback or store update |
| BleContextProvider.HandleDiscoverPeripheral | BleContextProvider.tsx:188-195 | every discovered peripheral is upserted under its own id, with no adapter call, callback or store update |
| BleContextProvider.HandleStopScan | BleContextProvider.tsx:197-201 | the stop-scan event dispatches `scanning(false)` only, with no adapter call, callback or store update |
| BleContextProvider.HandleDisconnectedPeripheral | BleContextProvider.tsx:203-207 | the disconnect event dispatches `disconnected` whichever peripheral it names, with no adapter call, callback or store update |
| BleContextProvider.InitBle | BleContextProvider.tsx:157-162 | start-up is exactly: the permission request (iff the gate issues one, i.e. not Android below 23), then enabling the radio, then starting the manager without an alert |
| BleContextProvider.StepKeepsInv | BleContextProvider.tsx:76-207 | every command and event keeps the state consistent and the registry keyed by peripheral id |
| BleContextProvider.StepsKeepInv | BleContextProvider.tsx:76-207 | every run of commands and events from a state satisfying the invariant keeps it |
| BleContextProvider.StartScanEffect | BleContextProvider.tsx:77-90 | while scanning, the state is unchanged; otherwise the registry ends empty even when the scan is rejected; `isScanning` ends true iff the scan was accepted; the connection fields are untouched |
| BleContextProvider.ScanTwice | BleContextProvider.tsx:77-90 | two scan commands in a row issue one scan call if the first is accepted, none if already scanning, and two if the first is rejected |
| BleContextProvider.ConnectFailureUnchanged | BleContextProvider.tsx:111-113 | a rejected connect leaves the state unchanged |
| BleContextProvider.ConnectSuccessCommits | BleContextProvider.tsx:94-109 | a resolved connect ends connected to that peripheral, whatever the service and notification outcomes; scanning and the registry are untouched |
| BleContextProvider.DisconnectEventAuthoritative | BleContextProvider.tsx:203-207 | the disconnect event always ends disconnected with no connected peripheral; the result is the same whether or not an explicit disconnect (successful or not) came first |
| BleContextProvider.DiscoveryUnfiltered | BleContextProvider.tsx:188-195 | in this variant any peripheral, whatever its name, enters the registry |
| BleMethods.Reduce | BleConnectionConextProviderBleMethods.tsx:17-57 | each action writes only the fields it names; consistency is preserved; clear empties the registry; an upsert stores the descriptor at its id and keeps the other keys |
| BleMethods.ReducersAgree | BleConnectionConextProviderBleMethods.tsx:17-57 | the second reducer equals the first on every state and action |
| BleMethods.RunAgrees | BleConnectionConextProviderBleMethods.tsx:17-57 | any action sequence ends in the same state under either reducer |
| BleMethods.GetPeripheralName | BleConnectionConextProviderBleMethods.tsx:60-68 | a present, non-empty advertised local name wins; otherwise the result is the peripheral's own name, which may be absent |
| BleMethods.HandleDiscoverPeripheral | BleConnectionConextProviderBleMethods.tsx:107-116 | a discovery is upserted under its id iff its own name is `SAMPlE_BLE`, with no adapter call, callback or store update; otherwise there is no effect |
| BleMethods.OnConnected | BleConnectionConextProviderBleMethods.tsx:94-99 | a resolved connect dispatches `connected` first, then calls the callback (iff given) with the target name, and ends by storing exactly the connected peripheral, once; it makes no adapter call |
| BleMethods.ConnectBle | BleConnectionConextProviderBleMethods.tsx:91-104 | a missing, unnamed or non-target peripheral produces no effect; a target gets exactly one connect call, as the first effect; `connected`, the callback and the store update of that peripheral happen iff connect resolves, in that order, with the store update last |
| BleMethods.StepKeepsInv | BleConnectionConextProviderBleMethods.tsx:71-130 | every command and event preserves: consistency, a registry keyed by id, only target-named entries, and a target-named connected peripheral |
| BleMethods.StepsKeepInv | BleConnectionConextProviderBleMethods.tsx:71-130 | every run of commands and events from a state satisfying the invariant keeps it |
| BleMethods.FromMountOnlyTargets | BleConnectionConextProviderBleMethods.tsx:106-116 | from mount, whatever happens, the registry never holds a peripheral whose name is not the target name |
| BleMethods.DiscoveryFilter | BleConnectionConextProviderBleMethods.tsx:110-115 | discovering a non-target (other name or no name) leaves the state unchanged; a target is upserted under its id |
| BleMethods.FilterIgnoresLocalName | BleConnectionConextProviderBleMethods.tsx:107-110 | a peripheral that advertises the target only as its local name gets the target display name, yet discovery drops it |
| BleMethods.DiscoveriesAreTargetUpserts | BleConnectionConextProviderBleMethods.tsx:106-116 | a run of discovery events equals upserting only the target-named peripherals, in order |
| BleMethods.ScanCycleRegistry | BleConnectionConextProviderBleMethods.tsx:71-116 | after an accepted scan and a run of discoveries, the registry holds exactly the ids of target-named discoveries, each once, with the latest such descriptor |
| BleMethods.ConnectNonTargetInert | BleConnectionConextProviderBleMethods.tsx:91-92 | connecting to a missing, unnamed or differently named peripheral issues nothing and changes nothing |
| BleMethods.ConnectOutcome | BleConnectionConextProviderBleMethods.tsx:93-102 | for a target, success ends connected to it with scanning and the registry untouched; failure changes nothing and calls no callback |
| BleMethods.StartScanEffect | BleConnectionConextProviderBleMethods.tsx:71-89 | while scanning, the state is unchanged; otherwise the registry ends empty and `isScanning` ends true iff the scan was accepted |
| BleMethods.StopAndDisconnectEvents | BleConnectionConextProviderBleMethods.tsx:118-130 | stop-scan only clears `isScanning`; the disconnect event only clears `isConnected` and `connectedBle` |
| BleMethods.RediscoveryScenario | BleConnectionConextProviderBleMethods.tsx:44-51 | discovering target `A`, then `A` again with RSSI -50, then `B` named `Other` leaves exactly one entry, `A`, holding the second descriptor |
| Permissions.RequestBlePermissions | BleConnectionConextProviderRequestPermissions.tsx:5-25 | on Android below version 23, no request is made and the result is true; otherwise a request is issued; an exception yields false |
| Permissions.DecisionIsSufficiency | BleConnectionConextProviderRequestPermissions.tsx:16-20 | when a request is made, the result is true iff CONNECT, SCAN and FINE_LOCATION are each exactly `"granted"` (a missing status counts as not granted) |
| Permissions.AdvertiseNeverMatters | BleConnectionConextProviderRequestPermissions.tsx:10-20 | changing or removing the ADVERTISE status never changes the decision |
| Permissions.InitBle | BleConnectionConextProviderRequestPermissions.tsx:28-32 | start-up is the permission request (when one is issued) followed by enabling the radio |
| Permissions.InitBleIgnoresDecision | BleConnectionConextProviderRequestPermissions.tsx:28-32 | the radio is enabled the same way whether permissions were granted, denied, or the request threw |

## Left out

- React machinery is not modelled: the context and its hook, `useReducer` wiring, listener subscription and teardown, and rendering. It is framework lifecycle.
- Native BLE manager calls are not modelled. Each awaited promise is an `Ok`/`Err` parameter, and a call appears only as an effect in the trace.
- Asynchronous interleaving is not modelled. Each command completes with its promises in one step. So the model does not cover two scan commands issued before the first scan promise settles; both would pass the `isScanning` guard. Stale closure state is not covered either.
- `readFromBle` and `writeToBle` are left out. They only forward to the adapter and log. The byte helpers they use are not part of this model.
- The characteristic-value handler of the second variant is left out, because it only logs.
- The registry is a JavaScript `Map`, which both reducers update in place. The model treats it as a Dafny `map`, a value without order. Object identity and aliasing are not modelled. Neither is the Map's insertion order, in which a rediscovered id keeps its first position (`Map.set` at BleContextProvider.tsx:53 and BleConnectionConextProviderBleMethods.tsx:46). So the model does not cover the order in which the list is shown (`Array.from(peripherals.values())` at HomeScreen.tsx:30).
- The action type strings are not modelled, so neither is the `addPerpheral` spelling of the second variant. Each variant dispatches its own spelling, so a typed action loses nothing.
- The `setConnectedDevice` store is external. It appears only as a `StoreConnectedDevice` effect.
- The second variant's `initialState` is not shown. It is taken to be the first variant's.
- Payload shapes are taken as the handlers send them: a boolean for `scanning`, and a peripheral for `connected`. Untyped payloads are not modelled.
- `HomeScreen.tsx` is presentation. The RSSI-to-distance formula uses floating point.
- `BleConnectionContextDisconnect.tsx` is a fragment without its bindings. The first variant's `disconnectBle` covers its behaviour.
- Logging is left out.
- BleMethods.Reduce: assumes the `let peripherals` declared in the `clearPeripherals` case (BleConnectionConextProviderBleMethods.tsx:38) behaves as a function-scoped `var`, as it does once a transpiler lowers `let`. Under ES2015 block scoping the switch body is one block, so the assignment in the `addPerpheral` case (:45) would hit the temporal dead zone and throw on every target discovery. The agreement with the first reducer (`BleMethods.ReducersAgree`, `BleMethods.RunAgrees`) holds only under that reading.
- `BleContextProvider.tsx` uses `requestBlePermissions` (:159), `BLE_SERVICE_ID` and `BLE_READ_CHAR_ID` (:100-101) without importing them. The model binds them to the definitions in BleConnectionConextProviderRequestPermissions.tsx:5 and BleConnectionConextProviderBleMethods.tsx:2-3.
- BleMethods.OnConnected: assumes the caller's callback returns normally. A throwing callback (BleConnectionConextProviderBleMethods.tsx:97) would skip `setConnectedDevice` (:98), and the `.catch` (:100) would log a connection failure after `connected` was already dispatched. The model has no exception effect for this path.
- BleContextProvider.ConnectBle: a rejected `retrieveServices` (BleContextProvider.tsx:97) has no handler, so it is an unhandled promise rejection in the app. The model treats it only as "no notification started", with `connected` already committed.
- BleContextProvider.ConnectBle: takes a present peripheral. Calling the first variant's `connectBle` with `undefined` throws synchronously at `peripheral.id` (BleContextProvider.tsx:94) before any effect; that path is not modelled.
- The second variant's `initBle` (BleConnectionConextProviderBleMethods.tsx:141-145) is the same sequence as `Permissions.InitBle` and is modelled by it.
