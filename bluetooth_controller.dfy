/** BluetoothController: the discovery bookkeeping behind the device list.
    It keeps the devices found so far (each address once, in the order found),
    a scanning flag and a status line, driven by the three discovery
    broadcasts and by the user's calls. */
module Controller {
  import opened Types

  /** The discovery broadcasts the receiver is registered for. `Found`
      carries the EXTRA_DEVICE extra, which may be missing. */
  datatype Action = Found(device: Option<Device>) | DiscoveryStarted | DiscoveryFinished

  const StatusEnabled := "Bluetooth Enabled - Ready to Connect"
  const StatusDisabled := "Bluetooth Disabled"
  const StatusScanning := "Scanning for devices..."
  const StatusNoDevices := "No devices found"
  const StatusEnableFirst := "Please enable Bluetooth first"
  const StatusScanPermission := "Bluetooth scan permission required"
  const StatusLocationPermission := "Location permission required"

  /** `list.contains(d)`: devices are equal when their addresses are. */
  predicate Contains(list: seq<Device>, d: Device)
  {
    exists i :: 0 <= i < |list| && list[i].address == d.address
  }

  /** The ACTION_FOUND update: append `d` unless a device with its address is
      already listed. */
  function AddIfAbsent(list: seq<Device>, d: Device): (r: seq<Device>)
    ensures |r| == |list| + (if Contains(list, d) then 0 else 1)
    ensures r[..|list|] == list
    ensures Contains(r, d)
    ensures DistinctAddresses(list) ==> DistinctAddresses(r)
  {
    if Contains(list, d) then list
    else
      var r := list + [d];
      assert r[|list|].address == d.address;
      r
  }

  /** Decimal digit for 0..9. */
  function Digit(n: nat): char
    requires n < 10
  {
    "0123456789"[n]
  }

  /** Kotlin's decimal rendering of a non-negative count. */
  function NatToString(n: nat): (r: string)
    ensures |r| >= 1
    ensures forall i :: 0 <= i < |r| ==> '0' <= r[i] <= '9'
    ensures r[0] == '0' ==> n == 0
    decreases n
  {
    if n < 10 then [Digit(n)] else NatToString(n / 10) + [Digit(n % 10)]
  }

  /** The number a string of decimal digits denotes. */
  function DecimalValue(s: string): nat
    requires forall i :: 0 <= i < |s| ==> '0' <= s[i] <= '9'
  {
    if s == [] then 0
    else DecimalValue(s[..|s| - 1]) * 10 + ((s[|s| - 1] as int) - ('0' as int))
  }

  /** NatToString writes exactly the number: reading its digits back gives n. */
  lemma {:induction false} NatToStringRoundTrip(n: nat)
    ensures DecimalValue(NatToString(n)) == n
    decreases n
  {
    if n >= 10 {
      var prefix := NatToString(n / 10);
      var s := prefix + [Digit(n % 10)];
      assert s[..|s| - 1] == prefix;
      NatToStringRoundTrip(n / 10);
    }
  }

  /** The status line after DISCOVERY_FINISHED with `count` devices listed. */
  function FinishedStatus(count: nat): (r: string)
    ensures count == 0 ==> r == StatusNoDevices
    ensures count > 0 ==> r == "Found " + NatToString(count) + " devices"
  {
    if count > 0 then "Found " + NatToString(count) + " devices" else StatusNoDevices
  }

  /** The name shown on connecting: the address when the connect permission
      is missing, otherwise the name, falling back to the address. */
  function DeviceLabel(d: Device, p: Platform): (r: string)
    ensures ConnectDenied(p) || d.name.None? ==> r == d.address
    ensures !ConnectDenied(p) && d.name.Some? ==> r == d.name.value
  {
    if ConnectDenied(p) then d.address else DisplayName(d)
  }

  /** `getPairedDevices`: the bonded devices, or none when the connect
      permission is missing or there is no adapter. */
  function PairedDevices(p: Platform, adapterPresent: bool, bonded: seq<Device>): (r: seq<Device>)
    ensures ConnectDenied(p) || !adapterPresent ==> r == []
    ensures !ConnectDenied(p) && adapterPresent ==> r == bonded
    ensures DistinctAddresses(bonded) ==> DistinctAddresses(r)
  {
    if ConnectDenied(p) || !adapterPresent then [] else bonded
  }

  class BluetoothController {
    /** `bluetoothAdapter`, null on hardware without Bluetooth. */
    const adapter: Adapter?
    var isBluetoothEnabled: bool
    var discoveredDevices: seq<Device>
    var isScanning: bool
    var statusMessage: string
    /** The discovery receiver is registered. */
    var receiverRegistered: bool

    /** The device list never repeats an address. */
    ghost predicate Valid()
      reads this, adapter
    {
      && DistinctAddresses(discoveredDevices)
      && (adapter != null ==> adapter.Valid())
    }

    /** The constructor, including `init { updateBluetoothStatus() }`. */
    constructor (adapter: Adapter?)
      requires adapter != null ==> adapter.Valid()
      ensures Valid() && this.adapter == adapter
      ensures isBluetoothEnabled == (adapter != null && adapter.enabled)
      ensures statusMessage == if isBluetoothEnabled then StatusEnabled else StatusDisabled
      ensures discoveredDevices == [] && !isScanning && !receiverRegistered
    {
      this.adapter := adapter;
      discoveredDevices := [];
      isScanning := false;
      receiverRegistered := false;
      var enabled := adapter != null && adapter.enabled;
      isBluetoothEnabled := enabled;
      statusMessage := if enabled then StatusEnabled else StatusDisabled;
    }

    /** `isBluetoothSupported`. */
    method IsBluetoothSupported() returns (supported: bool)
      ensures supported <==> adapter != null
    {
      supported := adapter != null;
    }

    /** `getPairedDevices`. */
    method GetPairedDevices(p: Platform) returns (devices: seq<Device>)
      requires Valid()
      ensures devices == PairedDevices(p, adapter != null, if adapter != null then adapter.bonded else [])
      ensures DistinctAddresses(devices)
    {
      devices := PairedDevices(p, adapter != null, if adapter != null then adapter.bonded else []);
    }

    /** The discovery receiver's `onReceive`. When a new device is appended
        while the connect permission is missing on API 31 and later, the log
        line reading the device's name throws after the append; the model
        keeps the state reached just before that throw. */
    method OnReceive(action: Action, p: Platform)
      requires Valid()
      modifies this
      ensures Valid()
      ensures receiverRegistered == old(receiverRegistered) && isBluetoothEnabled == old(isBluetoothEnabled)
      ensures action.Found? && (ScanDenied(p) || action.device.None?) ==>
        discoveredDevices == old(discoveredDevices) && isScanning == old(isScanning)
        && statusMessage == old(statusMessage)
      ensures action.Found? && !ScanDenied(p) && action.device.Some? ==>
        discoveredDevices == AddIfAbsent(old(discoveredDevices), action.device.value)
        && isScanning == old(isScanning) && statusMessage == old(statusMessage)
      ensures action.DiscoveryStarted? ==>
        isScanning && statusMessage == StatusScanning && discoveredDevices == old(discoveredDevices)
      ensures action.DiscoveryFinished? ==>
        !isScanning && statusMessage == FinishedStatus(|discoveredDevices|)
        && discoveredDevices == old(discoveredDevices)
    {
      match action
      case Found(device) =>
        if ScanDenied(p) {
          return;
        }
        if device.Some? {
          discoveredDevices := AddIfAbsent(discoveredDevices, device.value);
        }
      case DiscoveryStarted =>
        isScanning := true;
        statusMessage := StatusScanning;
      case DiscoveryFinished =>
        isScanning := false;
        statusMessage := FinishedStatus(|discoveredDevices|);
    }

    /** `updateBluetoothStatus`. */
    method UpdateBluetoothStatus()
      requires Valid()
      modifies this
      ensures Valid()
      ensures isBluetoothEnabled == (adapter != null && adapter.enabled)
      ensures statusMessage == (if isBluetoothEnabled then StatusEnabled else StatusDisabled)
      ensures discoveredDevices == old(discoveredDevices) && isScanning == old(isScanning)
      ensures receiverRegistered == old(receiverRegistered)
    {
      isBluetoothEnabled := adapter != null && adapter.enabled;
      statusMessage := if isBluetoothEnabled then StatusEnabled else StatusDisabled;
    }

    /** `startDiscovery`. `accepted` is what the adapter's own startDiscovery
        answers when asked. */
    method StartDiscovery(p: Platform, accepted: bool) returns (started: bool)
      requires Valid()
      modifies this, adapter
      ensures Valid()
      ensures isBluetoothEnabled == old(isBluetoothEnabled) && isScanning == old(isScanning)
      ensures adapter != null ==> adapter.enabled == old(adapter.enabled) && adapter.bonded == old(adapter.bonded)
      ensures !isBluetoothEnabled ==>
        !started && statusMessage == StatusEnableFirst
        && discoveredDevices == old(discoveredDevices) && receiverRegistered == old(receiverRegistered)
      ensures isBluetoothEnabled && p.sdk >= ApiS && !p.scanGranted ==>
        !started && statusMessage == StatusScanPermission
        && discoveredDevices == old(discoveredDevices) && receiverRegistered == old(receiverRegistered)
      ensures isBluetoothEnabled && p.sdk < ApiS && !p.fineLocationGranted ==>
        !started && statusMessage == StatusLocationPermission
        && discoveredDevices == old(discoveredDevices) && receiverRegistered == old(receiverRegistered)
      ensures isBluetoothEnabled && (if p.sdk >= ApiS then p.scanGranted else p.fineLocationGranted) ==>
        && receiverRegistered && statusMessage == old(statusMessage)
        && discoveredDevices == PairedDevices(p, adapter != null, if adapter != null then adapter.bonded else [])
        && started == (adapter != null && accepted)
        && (started ==> adapter.discovering)
      ensures adapter != null && !started ==> adapter.discovering == old(adapter.discovering)
    {
      if !isBluetoothEnabled {
        statusMessage := StatusEnableFirst;
        return false;
      }
      if p.sdk >= ApiS {
        if !p.scanGranted {
          statusMessage := StatusScanPermission;
          return false;
        }
      } else {
        if !p.fineLocationGranted {
          statusMessage := StatusLocationPermission;
          return false;
        }
      }
      receiverRegistered := true;
      discoveredDevices := GetPairedDevices(p);
      if adapter != null && accepted {
        adapter.discovering := true;
        started := true;
      } else {
        started := false;
      }
    }

    /** `stopDiscovery`: cancel the scan, unregister the receiver and clear
        the scanning flag. Any exception ends the attempt early and is only
        logged: cancelling throws when the scan permission is missing, and
        unregistering throws when the receiver is not registered. */
    method StopDiscovery(p: Platform)
      requires Valid()
      modifies this, adapter
      ensures Valid()
      ensures discoveredDevices == old(discoveredDevices) && statusMessage == old(statusMessage)
      ensures isBluetoothEnabled == old(isBluetoothEnabled)
      ensures adapter != null ==> adapter.enabled == old(adapter.enabled) && adapter.bonded == old(adapter.bonded)
      ensures (adapter != null && ScanDenied(p)) || !old(receiverRegistered) ==>
        isScanning == old(isScanning) && receiverRegistered == old(receiverRegistered)
      ensures !(adapter != null && ScanDenied(p)) && old(receiverRegistered) ==>
        !isScanning && !receiverRegistered
      ensures adapter != null && !ScanDenied(p) ==> !adapter.discovering
      ensures adapter != null && ScanDenied(p) ==> adapter.discovering == old(adapter.discovering)
    {
      if adapter != null {
        if ScanDenied(p) {
          return;
        }
        adapter.CancelDiscovery();
      }
      if !receiverRegistered {
        return;
      }
      receiverRegistered := false;
      isScanning := false;
    }

    /** `connectToDevice`: for now only reports the connection. */
    method ConnectToDevice(d: Device, p: Platform)
      requires Valid()
      modifies this
      ensures Valid()
      ensures statusMessage == "Connected to " + DeviceLabel(d, p)
      ensures discoveredDevices == old(discoveredDevices) && isScanning == old(isScanning)
      ensures isBluetoothEnabled == old(isBluetoothEnabled) && receiverRegistered == old(receiverRegistered)
    {
      statusMessage := "Connected to " + DeviceLabel(d, p);
    }
  }

  /** Pure form of the receiver's effect on the device list, for reasoning
      about a whole run of broadcasts. */
  function ApplyFound(list: seq<Device>, found: seq<Device>): (r: seq<Device>)
    ensures |r| >= |list|
    ensures r[..|list|] == list
    ensures forall i :: |list| <= i < |r| ==> exists j :: 0 <= j < |found| && found[j].address == r[i].address
    decreases |found|
  {
    if found == [] then list
    else
      var next := AddIfAbsent(list, found[0]);
      var r := ApplyFound(next, found[1..]);
      assert forall i :: |list| <= i < |r| ==> exists j :: 0 <= j < |found| && found[j].address == r[i].address by {
        forall i | |list| <= i < |r|
          ensures exists j :: 0 <= j < |found| && found[j].address == r[i].address
        {
          if i < |next| {
            assert r[i] == next[i] == found[0];
          } else {
            var j :| 0 <= j < |found[1..]| && found[1..][j].address == r[i].address;
            assert found[j + 1] == found[1..][j];
          }
        }
      }
      r
  }

  /** Over any run of ACTION_FOUND broadcasts the list stays free of repeated
      addresses, keeps its earlier entries in place, and lists every device
      found. */
  lemma {:induction false} ApplyFoundKeepsDistinct(list: seq<Device>, found: seq<Device>)
    requires DistinctAddresses(list)
    ensures DistinctAddresses(ApplyFound(list, found))
    ensures forall j :: 0 <= j < |found| ==> Contains(ApplyFound(list, found), found[j])
    decreases |found|
  {
    if found != [] {
      var next := AddIfAbsent(list, found[0]);
      ApplyFoundKeepsDistinct(next, found[1..]);
      var r := ApplyFound(list, found);
      assert r == ApplyFound(next, found[1..]);
      forall j | 0 <= j < |found|
        ensures Contains(r, found[j])
      {
        if j == 0 {
          var i :| 0 <= i < |next| && next[i].address == found[0].address;
          assert r[..|next|] == next;
          assert r[i] == next[i];
        } else {
          assert found[j] == found[1..][j - 1];
        }
      }
    }
  }
}
