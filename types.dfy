/** Values shared by the Bluetooth components of CrisisLink. */
module Types {

  datatype Option<T> = None | Some(value: T)

  /** A remote Bluetooth device as the stack reports it: its hardware address
      and its display name, which the stack may not know. Two devices are the
      same device exactly when their addresses agree (BluetoothDevice.equals). */
  datatype Device = Device(address: string, name: Option<string>)

  /** The label the app shows for a device: its name, or its address when the
      name is unknown (`name ?: address`). */
  function DisplayName(d: Device): string
  {
    match d.name
    case Some(n) => n
    case None => d.address
  }

  /** An RFCOMM socket, identified by a handle, connected to `remote`. */
  datatype Socket = Socket(id: nat, remote: Device)

  /** A row of the message history (the Room entity `Message`). The id is
      0 until the store assigns one; the timestamp is an opaque clock value. */
  datatype Message = Message(
    id: int,
    content: string,
    senderName: string,
    senderAddress: string,
    timestamp: int,
    isEmergency: bool,
    isReceived: bool)

  /** The record BluetoothService persists for an inbound chunk. */
  function ReceivedRecord(text: string, address: string, time: int): Message
  {
    Message(0, text, "Remote", address, time, false, true)
  }

  /** The record the chat screen persists for an outbound message. */
  function SentRecord(text: string, isEmergency: bool, time: int): Message
  {
    Message(0, text, "Me", "Local Device", time, isEmergency, false)
  }

  /** True when no two devices of `list` share an address. */
  predicate DistinctAddresses(list: seq<Device>)
  {
    forall i, j :: 0 <= i < j < |list| ==> list[i].address != list[j].address
  }

  /** API level of Android 12 (`Build.VERSION_CODES.S`), from which scanning
      and connecting need their own runtime permissions. */
  const ApiS: nat := 31

  /** The platform facts the app checks: the API level and which
      runtime permissions are granted. */
  datatype Platform = Platform(sdk: nat, scanGranted: bool, connectGranted: bool, fineLocationGranted: bool)

  predicate ScanDenied(p: Platform)
  {
    p.sdk >= ApiS && !p.scanGranted
  }

  predicate ConnectDenied(p: Platform)
  {
    p.sdk >= ApiS && !p.connectGranted
  }

  /** The default Bluetooth adapter: whether it is switched on, whether a
      discovery scan is running, and its bonded (paired) devices, which the
      platform keeps as a set and hence without repeated addresses. */
  class Adapter {
    var enabled: bool
    var discovering: bool
    var bonded: seq<Device>

    ghost predicate Valid()
      reads this
    {
      DistinctAddresses(bonded)
    }

    constructor (enabled: bool, bonded: seq<Device>)
      requires DistinctAddresses(bonded)
      ensures Valid()
      ensures this.enabled == enabled && this.bonded == bonded && !discovering
    {
      this.enabled := enabled;
      this.bonded := bonded;
      discovering := false;
    }

    /** `cancelDiscovery()`: stops a running scan; harmless when none runs. */
    method CancelDiscovery()
      modifies this
      ensures !discovering && enabled == old(enabled) && bonded == old(bonded)
    {
      discovering := false;
    }
  }
}
