/** BluetoothService as an object: its fields change in place, and each
    callback is one atomic method whose effect is the matching step of
    ServiceModel. */
module Service {
  import opened Types
  import opened ServiceModel

  class BluetoothService {
    /** `acceptThread?.cancel()` has been called. */
    var listenerCancelled: bool
    /** Every ConnectedThread created so far, with its cancelled flag. */
    var sessions: seq<InstalledSession>
    /** `connectedThread`, as an index into `sessions`. */
    var connectedThread: Option<nat>
    var connectedSocket: Option<Socket>
    var connectedDeviceName: Option<string>
    /** The echo guard. */
    var lastSentMessage: Option<string>
    /** Devices a ConnectThread was started for. */
    ghost var attempts: seq<Device>
    /** `write` calls made on sessions. */
    ghost var writes: seq<Write>
    /** Records handed to the message store. */
    ghost var persisted: seq<Message>
    /** Texts posted as notifications. */
    ghost var notified: seq<string>
    /** `serviceScope.cancel()` has been called. */
    var scopeCancelled: bool

    ghost function Abs(): State
      reads this
    {
      State(listenerCancelled, sessions, connectedThread, connectedSocket, connectedDeviceName,
            lastSentMessage, attempts, writes, persisted, notified, scopeCancelled)
    }

    ghost predicate Valid()
      reads this
    {
      Inv(Abs())
    }

    /** `onCreate`: the listener is started; there is no session yet. */
    constructor ()
      ensures Valid() && Abs() == Initial()
    {
      listenerCancelled := false;
      sessions := [];
      connectedThread := None;
      connectedSocket := None;
      connectedDeviceName := None;
      lastSentMessage := None;
      attempts := [];
      writes := [];
      persisted := [];
      notified := [];
      scopeCancelled := false;
    }

    /** `connectedThread?.cancel()`. */
    method CancelConnectedThread()
      requires connectedThread.Some? ==> connectedThread.value < |sessions|
      modifies this
      ensures sessions == CancelCurrent(old(sessions), connectedThread)
      ensures listenerCancelled == old(listenerCancelled) && connectedThread == old(connectedThread)
      ensures connectedSocket == old(connectedSocket) && connectedDeviceName == old(connectedDeviceName)
      ensures lastSentMessage == old(lastSentMessage) && attempts == old(attempts)
      ensures writes == old(writes) && persisted == old(persisted) && notified == old(notified)
      ensures scopeCancelled == old(scopeCancelled)
    {
      if connectedThread.Some? {
        var k := connectedThread.value;
        sessions := sessions[k := sessions[k].(cancelled := true)];
      }
    }

    method OnSocketConnected(socket: Socket)
      requires Valid()
      modifies this
      ensures Valid()
      ensures Abs() == ServiceModel.OnSocketConnected(old(Abs()), socket)
      ensures connectedThread == Some(|sessions| - 1) && AtMostOneLive(sessions)
    {
      connectedSocket := Some(socket);
      connectedDeviceName := Some(DisplayName(socket.remote));
      CancelConnectedThread();
      sessions := sessions + [InstalledSession(socket, false)];
      connectedThread := Some(|sessions| - 1);
      ConnectLeavesOnlyNewLive(old(Abs()), socket);
    }

    /** The callback installed on session `k`. */
    method OnMessageReceived(k: nat, text: string, time: int)
      requires Valid() && k < |sessions|
      modifies this
      ensures Valid()
      ensures Abs() == ServiceModel.OnMessageReceived(old(Abs()), k, text, time)
    {
      if lastSentMessage != Some(text) {
        notified := notified + [text];
        if !scopeCancelled {
          persisted := persisted + [ReceivedRecord(text, sessions[k].socket.remote.address, time)];
        }
      } else {
        lastSentMessage := None;
      }
      StepKeepsInv(old(Abs()), MessageReceived(k, text, time));
    }

    method SendMessageOverBluetooth(text: string)
      requires Valid()
      modifies this
      ensures Valid()
      ensures Abs() == ServiceModel.SendMessageOverBluetooth(old(Abs()), text)
    {
      lastSentMessage := Some(text);
      if connectedThread.Some? {
        writes := writes + [Write(connectedThread.value, text)];
      }
    }

    method ConnectToDevice(device: Device)
      requires Valid()
      modifies this
      ensures Valid()
      ensures Abs() == ServiceModel.ConnectToDevice(old(Abs()), device)
    {
      CancelConnectedThread();
      attempts := attempts + [device];
      StepKeepsInv(old(Abs()), ConnectTo(device));
    }

    method OnDestroy()
      requires Valid()
      modifies this
      ensures Valid()
      ensures Abs() == ServiceModel.OnDestroy(old(Abs()))
    {
      listenerCancelled := true;
      CancelConnectedThread();
      scopeCancelled := true;
      StepKeepsInv(old(Abs()), Destroy);
    }
  }

  /** The listener accepts a socket from some device: the service then has a
      session and shows that device's name. */
  method AcceptFromX(x: Socket) returns (hasSession: bool, name: Option<string>)
    ensures hasSession && name == Some(DisplayName(x.remote))
  {
    var service := new BluetoothService();
    service.OnSocketConnected(x);
    hasSession, name := service.connectedThread.Some?, service.connectedDeviceName;
  }

  /** Sending with no session arms the guard, writes nothing and stores
      nothing. */
  method SendWithoutSession(text: string)
    returns (guard: Option<string>, hasSession: bool,
             ghost writes: seq<Write>, ghost persisted: seq<Message>, ghost notified: seq<string>)
    ensures guard == Some(text) && !hasSession
    ensures writes == [] && persisted == [] && notified == []
  {
    var service := new BluetoothService();
    service.SendMessageOverBluetooth(text);
    guard, hasSession := service.lastSentMessage, service.connectedThread.Some?;
    writes, persisted, notified := service.writes, service.persisted, service.notified;
  }
}
