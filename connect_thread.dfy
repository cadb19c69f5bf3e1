/** The initiator thread (ConnectThread): creates an RFCOMM socket to one
    device, stops any discovery scan on the default adapter, connects, and
    either hands the socket to its callback or closes it. */
module Initiator {
  import opened Types

  /** The steps `run` takes on the adapter and the socket, in order. */
  datatype Step = CancelDiscovery | Connect | Callback | Close

  class ConnectThread {
    const device: Device
    /** `createRfcommSocketToServiceRecord` returned a socket; when it did not,
        `run` neither connects nor calls back. */
    const hasSocket: bool
    const socket: Socket
    var connected: bool
    var closed: bool
    /** The sockets handed to `onSocketConnected`, in order. */
    var handedOff: seq<Socket>
    /** The steps taken so far. */
    var steps: seq<Step>

    /** Before `run` nothing has been connected or handed off; afterwards at
        most one socket has been handed off, and only a connected one. */
    ghost predicate Valid()
      reads this
    {
      && (steps == [] ==> handedOff == [] && !connected)
      && |handedOff| <= 1
      && (handedOff != [] ==> connected && handedOff == [socket])
    }

    constructor (device: Device, hasSocket: bool, id: nat)
      ensures Valid()
      ensures this.device == device && this.hasSocket == hasSocket
      ensures socket == Socket(id, device)
      ensures !connected && !closed && handedOff == [] && steps == []
    {
      this.device := device;
      this.hasSocket := hasSocket;
      socket := Socket(id, device);
      connected := false;
      closed := false;
      handedOff := [];
      steps := [];
    }

    /** `run`, started once per thread. `connectSucceeds` is the outcome the
        remote side gives; connecting a socket already closed by `cancel`
        fails. Stopping the scan comes before the `try`: when the platform
        denies it (the scan permission is missing on API 31 and later) the
        exception is not caught, and the model keeps the state reached just
        before it: no connect, no callback and the socket left as it was. */
    method Run(adapter: Adapter, p: Platform, connectSucceeds: bool)
      requires Valid() && steps == []
      modifies this, adapter
      ensures Valid()
      ensures adapter.enabled == old(adapter.enabled) && adapter.bonded == old(adapter.bonded)
      ensures |steps| >= 1 && steps[0] == CancelDiscovery
      ensures ScanDenied(p) ==>
        && steps == [CancelDiscovery] && handedOff == [] && !connected && closed == old(closed)
        && adapter.discovering == old(adapter.discovering)
      ensures !ScanDenied(p) ==> !adapter.discovering
      ensures !ScanDenied(p) && !hasSocket ==>
        steps == [CancelDiscovery] && handedOff == [] && !connected && closed == old(closed)
      ensures !ScanDenied(p) && hasSocket && connectSucceeds && !old(closed) ==>
        && steps == [CancelDiscovery, Connect, Callback]
        && handedOff == [socket] && connected && !closed
      ensures !ScanDenied(p) && hasSocket && !(connectSucceeds && !old(closed)) ==>
        && steps == [CancelDiscovery, Connect, Close]
        && handedOff == [] && !connected && closed
    {
      steps := [CancelDiscovery];
      if ScanDenied(p) {
        // SecurityException, uncaught: the app process ends here
        return;
      }
      adapter.CancelDiscovery();
      if hasSocket {
        steps := steps + [Connect];
        if connectSucceeds && !closed {
          connected := true;
          steps := steps + [Callback];
          handedOff := handedOff + [socket];
        } else {
          // IOException: logged, the socket is closed and the error swallowed
          steps := steps + [Close];
          closed := true;
        }
      }
    }

    /** `cancel`: closes the socket, whether or not `run` happened; a second
        call changes nothing and errors are swallowed. */
    method Cancel()
      requires Valid()
      modifies this
      ensures Valid()
      ensures closed == (hasSocket || old(closed))
      ensures connected == old(connected) && handedOff == old(handedOff) && steps == old(steps)
    {
      if hasSocket {
        closed := true;
      }
    }
  }

  /** A platform on which every runtime permission is granted. */
  const Granted := Platform(ApiS, true, true, true)

  /** With a scan running, a successful connect calls back exactly once and
      leaves the socket open; a failed one calls back never and closes it.
      Either way the scan has been stopped first. */
  method ConnectOnce(device: Device, id: nat, succeeds: bool)
    returns (callbacks: seq<Socket>, open: bool, discovering: bool)
    ensures succeeds ==> callbacks == [Socket(id, device)] && open
    ensures !succeeds ==> callbacks == [] && !open
    ensures !discovering
  {
    var adapter := new Adapter(true, []);
    adapter.discovering := true;
    var t := new ConnectThread(device, true, id);
    t.Run(adapter, Granted, succeeds);
    callbacks, open, discovering := t.handedOff, !t.closed, adapter.discovering;
  }

  /** Without the scan permission on API 31 and later, stopping the scan
      throws and nothing catches it. The state reached just before the
      throw: no callback, the socket still open and the scan still running.
      (The uncaught exception ends the whole app process.) */
  method ConnectWithoutScanPermission(device: Device, id: nat, succeeds: bool)
    returns (callbacks: seq<Socket>, open: bool, discovering: bool)
    ensures callbacks == [] && open && discovering
  {
    var adapter := new Adapter(true, []);
    adapter.discovering := true;
    var t := new ConnectThread(device, true, id);
    t.Run(adapter, Platform(ApiS, false, true, true), succeeds);
    callbacks, open, discovering := t.handedOff, !t.closed, adapter.discovering;
  }

  /** Cancelling twice before running closes the socket, and the later run
      fails without calling back. */
  method CancelTwiceThenRun(device: Device, id: nat, succeeds: bool)
    returns (callbacks: seq<Socket>, closed: bool)
    ensures callbacks == [] && closed
  {
    var adapter := new Adapter(true, []);
    var t := new ConnectThread(device, true, id);
    t.Cancel();
    t.Cancel();
    t.Run(adapter, Granted, succeeds);
    callbacks, closed := t.handedOff, t.closed;
  }
}
