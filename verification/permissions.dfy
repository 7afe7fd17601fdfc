/**
 The permission gate run once at start-up, and the start-up ordering it sits in:
 the request completes, and the radio is enabled whatever it decided.
 */
module Permissions {

  datatype Permission = AccessFineLocation | BluetoothConnect | BluetoothScan | BluetoothAdvertise

  /** The batch requested, in request order. */
  const Requested: seq<Permission> := [AccessFineLocation, BluetoothConnect, BluetoothScan, BluetoothAdvertise]

  /** The permissions whose grant the decision depends on. */
  const Required: set<Permission> := {BluetoothConnect, BluetoothScan, AccessFineLocation}

  /** What the batched request produced: a status per permission (a missing
      entry reads as undefined), or an exception. */
  datatype Reply = Statuses(status: map<Permission, string>) | Threw

  /** Whether a request was issued, and the boolean the gate resolves to. */
  datatype Decision = Decision(requested: bool, granted: bool)

  predicate Granted(status: map<Permission, string>, q: Permission) {
    q in status && status[q] == "granted"
  }

  /** Android below API level 23 has no runtime prompts. */
  predicate Ungated(os: string, version: int) {
    os == "android" && version < 23
  }

  /** The reference for sufficiency: every required permission is granted. */
  predicate Sufficient(status: map<Permission, string>) {
    forall q :: q in Required ==> Granted(status, q)
  }

  /** The permission gate. It never fails: an exception resolves to false. */
  function RequestBlePermissions(os: string, version: int, reply: Reply): (d: Decision)
    ensures Ungated(os, version) ==> d == Decision(false, true)
    ensures !Ungated(os, version) ==> d.requested
    ensures d.requested && reply.Threw? ==> !d.granted
  {
    if Ungated(os, version) then Decision(false, true)
    else
      match reply
      case Threw => Decision(true, false)
      case Statuses(m) =>
        Decision(true, Granted(m, BluetoothConnect) && Granted(m, BluetoothScan) && Granted(m, AccessFineLocation))
  }

  /** Where a request is made, the gate grants exactly when every required
      permission's status is "granted". */
  lemma DecisionIsSufficiency(os: string, version: int, m: map<Permission, string>)
    requires !Ungated(os, version)
    ensures RequestBlePermissions(os, version, Statuses(m)).granted <==> Sufficient(m)
  {
  }

  /** The advertise status is requested but never affects the decision. */
  lemma AdvertiseNeverMatters(os: string, version: int, m: map<Permission, string>, v: string)
    ensures RequestBlePermissions(os, version, Statuses(m[BluetoothAdvertise := v]))
         == RequestBlePermissions(os, version, Statuses(m))
    ensures RequestBlePermissions(os, version, Statuses(m - {BluetoothAdvertise}))
         == RequestBlePermissions(os, version, Statuses(m))
  {
  }

  /** One step of the start-up sequence. */
  datatype InitStep = RequestPermissions(perms: seq<Permission>) | EnableBluetooth | StartManager(showAlert: bool)

  /** Start-up: await the gate, then enable the radio; the gate's boolean is
      not consulted. */
  function InitBle(os: string, version: int, reply: Reply): (steps: seq<InitStep>)
    ensures |steps| >= 1 && steps[|steps| - 1] == EnableBluetooth
    ensures RequestBlePermissions(os, version, reply).requested <==> steps == [RequestPermissions(Requested), EnableBluetooth]
    ensures !RequestBlePermissions(os, version, reply).requested <==> steps == [EnableBluetooth]
  {
    var d := RequestBlePermissions(os, version, reply);
    (if d.requested then [RequestPermissions(Requested)] else []) + [EnableBluetooth]
  }

  /** The radio is enabled the same way whether permissions were granted,
      denied or the request threw. */
  lemma InitBleIgnoresDecision(os: string, version: int, r1: Reply, r2: Reply)
    ensures InitBle(os, version, r1) == InitBle(os, version, r2)
  {
  }
}
