# CrisisLink Bluetooth core in Dafny

CrisisLink is an Android app for sending emergency text messages between two
phones over a Bluetooth classic (RFCOMM) link. This project models the
bookkeeping that sits on top of the Bluetooth sockets:

- the **connection manager** `BluetoothService`. It owns the current session
  (`connectedThread`, `connectedSocket`, `connectedDeviceName`). It also owns
  the single-slot echo guard `lastSentMessage`. Its inbound callback drops a
  chunk equal to the guard and clears the guard. Any other chunk is notified
  and persisted as a received message;
- the **session thread** `ConnectedThread`. Its receive loop reads into a
  1024-byte buffer and emits one chunk per positive-count read. It stops at the
  first I/O failure. `write` and `cancel` swallow their errors;
- the **listener** `AcceptThread` and the **initiator** `ConnectThread`. These are
  single-shot threads that hand at most one socket to the manager;
- the **discovery controller** `BluetoothController`. It keeps a device list
  without repeated addresses, a scanning flag and a status line.

Sockets, the adapter and permission checks are inputs. A read or accept or
connect outcome is a parameter or a script. The API level and granted
permissions are a `Platform` value. The adapter is a small `Adapter` object.
Each callback is one atomic step. `ServiceModel` gives the manager as values
(`State`, `Event`, `Step`, `Run`), and the lemmas about event sequences are
proved there. `Service.BluetoothService` is the same manager as an object
whose methods are proved to perform exactly those steps.

Files: `types.dfy` (shared values, the adapter), `connected_thread.dfy`,
`accept_thread.dfy`, `connect_thread.dfy`, `service_model.dfy`,
`bluetooth_service.dfy`, `bluetooth_controller.dfy`.

## Quirks of the code that the model keeps

- `connectedDeviceName` is only ever assigned in `onSocketConnected`. After a
  stream error the service still reports the last device's name. A failed read
  only ends the session's loop, and the service never hears of it.
- `sendMessageOverBluetooth` arms the echo guard even when there is no session,
  and then writes nothing and stores nothing. `GuardArmedWithoutSession` shows
  the consequence: the first matching chunk on a session installed later is
  dropped.
- The chat screen calls the service through a nullable reference. Before the
  screen is bound, a send stores the "sent" record but writes the text to no
  session and does not arm the guard.
- `ConnectedThread.write` catches its I/O failure and returns normally.
- `connectToDevice` cancels the current session but leaves `connectedThread`
  pointing at it. Later sends go to that cancelled session.
- `onDestroy` cancels the coroutine scope used for the store's inserts, but a
  `ConnectThread` still connecting can install a session afterwards. Chunks on
  it are notified but never stored (`ChunkAfterDestroyNotStored`).
- `ConnectThread.run` stops the scan before its `try`. If that throws (the
  scan permission is missing on API 31 and later), nothing catches the
  exception and the app process ends; up to that point there has been no
  connect and no callback.
- The discovery receiver logs a newly found device's name right after
  appending it. Without the connect permission on API 31 and later, reading
  the name throws, nothing catches it, and the app process ends.

## Model

| member | source | states |
|---|---|---|
| Session.FirstFailure | app/src/main/java/com/example/crisislink/bluetooth/ConnectedThread.kt:17-27 | the position of the first failing read: every earlier read succeeded, and the entry there is a failure |
| Session.Consumed | app/src/main/java/com/example/crisislink/bluetooth/ConnectedThread.kt:17-27 | the loop consumes reads up to and including the first failure, no failure comes before the last consumed entry, and all of the script is consumed if none fails |
| Session.Chunks | app/src/main/java/com/example/crisislink/bluetooth/ConnectedThread.kt:18-23 | every chunk handed to the callback is non-empty, and there are no more chunks than reads |
| Session.ChunksArePositiveReads | app/src/main/java/com/example/crisislink/bluetooth/ConnectedThread.kt:18-23 | the emitted chunks are exactly the positive-count reads before the first failure, in order |
| Session.ChunksAppend | app/src/main/java/com/example/crisislink/bluetooth/ConnectedThread.kt:18-23 | reads after a failure-free prefix add their chunks after that prefix's chunks |
| Session.FailureEndsLoop | app/src/main/java/com/example/crisislink/bluetooth/ConnectedThread.kt:17-27 | after a failed read no later script entry is consumed or emitted |
| Session.ChunksFitBuffer | app/src/main/java/com/example/crisislink/bluetooth/ConnectedThread.kt:11-21 | every emitted chunk has between 1 and 1024 bytes |
| Session.NonPositiveReadEmitsNothing | app/src/main/java/com/example/crisislink/bluetooth/ConnectedThread.kt:19-20 | a read returning 0 or -1 emits nothing and the loop goes on |
| Session.ConnectedThread.constructor | app/src/main/java/com/example/crisislink/bluetooth/ConnectedThread.kt:7-14 | a new session has a fresh 1024-byte buffer, an open socket and no callback |
| Session.ConnectedThread.SetCallback | app/src/main/java/com/example/crisislink/bluetooth/ConnectedThread.kt:14 | assigning onMessageReceived changes nothing else |
| Session.ConnectedThread.Run | app/src/main/java/com/example/crisislink/bluetooth/ConnectedThread.kt:16-28 | the loop makes Consumed(script) reads and emits Chunks(script) to the callback, or nothing without a callback |
| Session.ConnectedThread.ReadInto | app/src/main/java/com/example/crisislink/bluetooth/ConnectedThread.kt:19 | read returns its count and leaves that many bytes at the start of the buffer |
| Session.ConnectedThread.Write | app/src/main/java/com/example/crisislink/bluetooth/ConnectedThread.kt:31-37 | the text reaches the stream only if the socket is open and the stream works; a failure is not reported |
| Session.ConnectedThread.Cancel | app/src/main/java/com/example/crisislink/bluetooth/ConnectedThread.kt:40-46 | the socket ends closed, whatever its state before |
| Session.ReadWithoutCallback | app/src/main/java/com/example/crisislink/bluetooth/ConnectedThread.kt:14-22 | with onMessageReceived null the reads happen but nothing is emitted |
| Session.CancelTwiceThenWrite | app/src/main/java/com/example/crisislink/bluetooth/ConnectedThread.kt:31-46 | cancelling twice leaves the socket closed, and a later write reaches nothing and fails nothing |
| Listener.AcceptThread.constructor | app/src/main/java/com/example/crisislink/bluetooth/AcceptThread.kt:9-15 | a new listener is running with an open server socket and no hand-off |
| Listener.AcceptThread.Run | app/src/main/java/com/example/crisislink/bluetooth/AcceptThread.kt:17-29 | at most one accept and no retry; the callback fires only when the accept succeeds on an open server socket, and the server socket is closed after it; running ends false |
| Listener.AcceptThread.Cancel | app/src/main/java/com/example/crisislink/bluetooth/AcceptThread.kt:31-34 | running false and server socket closed, hand-offs unchanged |
| Listener.CancelBeforeRun | app/src/main/java/com/example/crisislink/bluetooth/AcceptThread.kt:15-34 | cancelled before run: no accept and no callback |
| Listener.RunTwice | app/src/main/java/com/example/crisislink/bluetooth/AcceptThread.kt:17-29 | running again never calls back a second time; a failed accept is not retried |
| Listener.CancelTwice | app/src/main/java/com/example/crisislink/bluetooth/AcceptThread.kt:31-34 | cancel is idempotent |
| Initiator.ConnectThread.constructor | app/src/main/java/com/example/crisislink/bluetooth/ConnectThread.kt:9-15 | a new initiator has a socket to the device, not connected or closed, and no steps |
| Initiator.ConnectThread.Run | app/src/main/java/com/example/crisislink/bluetooth/ConnectThread.kt:17-28 | discovery is cancelled first; when the scan permission is missing on API 31+ that throws and run ends with no connect, no callback, the socket as it was and the scan untouched; otherwise a successful connect calls back once and keeps the socket open, a failed one closes it, and no socket means no connect and no connection |
| Initiator.ConnectThread.Cancel | app/src/main/java/com/example/crisislink/bluetooth/ConnectThread.kt:30-32 | closes the socket whether or not run happened, nothing else changes |
| Initiator.ConnectOnce | app/src/main/java/com/example/crisislink/bluetooth/ConnectThread.kt:17-28 | with a scan running: success gives exactly one callback and leaves the socket open; failure gives no callback and closes the socket; the scan is stopped either way |
| Initiator.ConnectWithoutScanPermission | app/src/main/java/com/example/crisislink/bluetooth/ConnectThread.kt:17-28 | without the scan permission on API 31+, the state just before the uncaught exception: no callback, the socket still open and the scan still running |
| Initiator.CancelTwiceThenRun | app/src/main/java/com/example/crisislink/bluetooth/ConnectThread.kt:21-32 | cancel is idempotent, and a run after it fails without a callback |
| ServiceModel.CancelCurrent | app/src/main/java/com/example/crisislink/BluetoothService.kt:55 | only the current session gets cancelled; sockets and other flags are kept |
| ServiceModel.OnSocketConnected | app/src/main/java/com/example/crisislink/BluetoothService.kt:59-64 | a new live session becomes current and the previous current one is cancelled; the socket is recorded; the name is the remote's name, else its address |
| ServiceModel.OnMessageReceived | app/src/main/java/com/example/crisislink/BluetoothService.kt:65-85 | a chunk equal to the guard clears it and is neither persisted nor notified; any other chunk adds one notification and keeps the guard, and adds one record (Remote, session address, received, not emergency) unless the service scope is cancelled, in which case nothing is persisted |
| ServiceModel.SendMessageOverBluetooth | app/src/main/java/com/example/crisislink/BluetoothService.kt:91-94 | the guard is set to the text even without a session; a write happens only with a session; nothing is persisted or notified |
| ServiceModel.ConnectToDevice | app/src/main/java/com/example/crisislink/BluetoothService.kt:54-57 | cancels the current session; connectedThread, connectedDeviceName and the guard are unchanged |
| ServiceModel.OnDestroy | app/src/main/java/com/example/crisislink/BluetoothService.kt:139-144 | the listener, exactly the current session among the installed ones, and the service scope end cancelled |
| ServiceModel.ActivitySend | app/src/main/java/com/example/crisislink/MainActivity.kt:40-119 | the chat screen stores one sent record (Me, Local Device) with or without a session; when bound to the service it also arms the guard and writes to the current session if there is one (nothing is written without one), when unbound the guard and writes are unchanged; sessions, connection fields, listener flag and attempts are kept |
| ServiceModel.InitialInv | app/src/main/java/com/example/crisislink/BluetoothService.kt:29-52 | the state after onCreate satisfies the invariant |
| ServiceModel.InvAtMostOneLive | app/src/main/java/com/example/crisislink/BluetoothService.kt:59-64 | under the invariant at most one installed session is uncancelled, and only the current one can be |
| ServiceModel.StepKeepsInv | app/src/main/java/com/example/crisislink/BluetoothService.kt:54-94 | every callback keeps the invariant |
| ServiceModel.RunKeepsInv | app/src/main/java/com/example/crisislink/BluetoothService.kt:54-94 | every event sequence keeps the invariant and never leaves two live sessions |
| ServiceModel.RunScopeCancelled | app/src/main/java/com/example/crisislink/BluetoothService.kt:139-144 | after any event sequence the scope is cancelled exactly when it was before or the sequence contains onDestroy |
| ServiceModel.ReachableAtMostOneLive | app/src/main/java/com/example/crisislink/BluetoothService.kt:44-144 | from start-up, at most one session is live, the received records are a prefix of the notifications, and without onDestroy they match the notifications one for one |
| ServiceModel.ChunkAfterDestroyNotStored | app/src/main/java/com/example/crisislink/BluetoothService.kt:59-85 | connectToDevice, destroy, then the late onSocketConnected of that connect, then a chunk: the chunk is notified and nothing is persisted |
| ServiceModel.ConnectLeavesOnlyNewLive | app/src/main/java/com/example/crisislink/BluetoothService.kt:59-64 | after onSocketConnected every earlier session is cancelled and only the new current one is live |
| ServiceModel.EchoGuardSingleUse | app/src/main/java/com/example/crisislink/BluetoothService.kt:65-92 | after send(T), inbound T, inbound T: exactly one notification for T, one received record for it unless the scope is cancelled, and the guard ends cleared |
| ServiceModel.EchoOfOwnMessageStoresOnlySent | app/src/main/java/com/example/crisislink/MainActivity.kt:40-119 | from a bound chat screen, sending T and getting T back stores only the sent record and posts no notification; from an unbound one, which writes nothing and leaves a guard not holding T, a chunk equal to T that arrives later is stored as a received record and notified as well |
| ServiceModel.GuardArmedWithoutSession | app/src/main/java/com/example/crisislink/BluetoothService.kt:91-94 | a send with no session writes nothing, and the guard then drops the first matching chunk of the next session |
| ServiceModel.SwitchDevice | app/src/main/java/com/example/crisislink/BluetoothService.kt:54-64 | accept from X, connect to Y and succeed: X's session is cancelled, Y's is the live one, and the device name is Y's |
| Service.BluetoothService.constructor | app/src/main/java/com/example/crisislink/BluetoothService.kt:44-52 | after onCreate the service is in the initial state |
| Service.BluetoothService.CancelConnectedThread | app/src/main/java/com/example/crisislink/BluetoothService.kt:55 | connectedThread?.cancel() cancels exactly the current session |
| Service.BluetoothService.OnSocketConnected | app/src/main/java/com/example/crisislink/BluetoothService.kt:59-88 | performs the OnSocketConnected step in place, leaving at most one live session |
| Service.BluetoothService.OnMessageReceived | app/src/main/java/com/example/crisislink/BluetoothService.kt:65-85 | performs the inbound step in place and keeps the invariant |
| Service.BluetoothService.SendMessageOverBluetooth | app/src/main/java/com/example/crisislink/BluetoothService.kt:91-94 | performs the send step in place |
| Service.BluetoothService.ConnectToDevice | app/src/main/java/com/example/crisislink/BluetoothService.kt:54-57 | performs the connectToDevice step in place |
| Service.BluetoothService.OnDestroy | app/src/main/java/com/example/crisislink/BluetoothService.kt:139-144 | performs the onDestroy step in place |
| Service.AcceptFromX | app/src/main/java/com/example/crisislink/BluetoothService.kt:59-64 | after accepting from X there is a session and connectedDeviceName is X's label |
| Service.SendWithoutSession | app/src/main/java/com/example/crisislink/BluetoothService.kt:91-94 | with no session a send arms the guard and writes, persists and notifies nothing |
| Controller.AddIfAbsent | app/src/main/java/com/example/crisislink/bluetooth/BluetoothController.kt:53-59 | the list grows by one exactly when the address is absent, keeps its earlier entries in order, contains the device, and stays free of repeated addresses |
| Controller.ApplyFound | app/src/main/java/com/example/crisislink/bluetooth/BluetoothController.kt:53-59 | a run of ACTION_FOUND updates keeps the earlier list as a prefix, and every entry past it has the address of a found device |
| Controller.ApplyFoundKeepsDistinct | app/src/main/java/com/example/crisislink/bluetooth/BluetoothController.kt:53-59 | over any run of found devices the list never repeats an address and lists every device found |
| Controller.NatToString | app/src/main/java/com/example/crisislink/bluetooth/BluetoothController.kt:71 | the count is rendered as decimal digits without a leading zero |
| Controller.NatToStringRoundTrip | app/src/main/java/com/example/crisislink/bluetooth/BluetoothController.kt:71 | reading the rendered digits back gives the count |
| Controller.FinishedStatus | app/src/main/java/com/example/crisislink/bluetooth/BluetoothController.kt:69-74 | "Found N devices" when N > 0, else "No devices found" |
| Controller.DeviceLabel | app/src/main/java/com/example/crisislink/bluetooth/BluetoothController.kt:153-158 | the address when the connect permission is missing on API 31+, else the name, falling back to the address |
| Controller.PairedDevices | app/src/main/java/com/example/crisislink/bluetooth/BluetoothController.kt:142-149 | no devices without the connect permission or an adapter, else the bonded devices, with no address repeated |
| Controller.BluetoothController.constructor | app/src/main/java/com/example/crisislink/bluetooth/BluetoothController.kt:19-83 | an empty list, not scanning, and the status that updateBluetoothStatus gives |
| Controller.BluetoothController.IsBluetoothSupported | app/src/main/java/com/example/crisislink/bluetooth/BluetoothController.kt:85-87 | supported exactly when there is an adapter |
| Controller.BluetoothController.GetPairedDevices | app/src/main/java/com/example/crisislink/bluetooth/BluetoothController.kt:142-149 | returns PairedDevices for the adapter's bonded set |
| Controller.BluetoothController.OnReceive | app/src/main/java/com/example/crisislink/bluetooth/BluetoothController.kt:37-79 | FOUND without the scan permission or a device changes nothing, else appends the device if absent (the state just before the uncaught throw of the log line when the connect permission is missing on API 31+); STARTED sets scanning and "Scanning for devices..."; FINISHED clears scanning and sets the count status |
| Controller.BluetoothController.UpdateBluetoothStatus | app/src/main/java/com/example/crisislink/bluetooth/BluetoothController.kt:89-96 | enabled exactly when the adapter exists and is on; the status says "Bluetooth Enabled - Ready to Connect" exactly then, else "Bluetooth Disabled" |
| Controller.BluetoothController.StartDiscovery | app/src/main/java/com/example/crisislink/bluetooth/BluetoothController.kt:98-130 | disabled: false, "Please enable Bluetooth first", list untouched; missing permission: false with its message; else the receiver is registered, the list becomes the paired devices, and the result is the adapter's answer; whenever the result is false the adapter's scan state is unchanged |
| Controller.BluetoothController.StopDiscovery | app/src/main/java/com/example/crisislink/bluetooth/BluetoothController.kt:132-140 | clears scanning and unregisters only when neither cancelling nor unregistering throws; the adapter stops scanning unless cancelling throws, and then its scan state is unchanged; list and status untouched |
| Controller.BluetoothController.ConnectToDevice | app/src/main/java/com/example/crisislink/bluetooth/BluetoothController.kt:151-161 | the status becomes "Connected to " followed by the device label |

## Left out

- Thread interleaving. The source has no lock. Every callback, send and connect is one atomic step, and races are not modelled.
- Blocking. A blocked read is the end of the read script. The accept and connect outcomes are parameters. Timeouts do not exist in the source.
- Session.ConnectedThread.Run: requires every scripted read to fit the 1024-byte buffer. `InputStream.read(byte[])` guarantees this.
- Session.ConnectedThread.Run: a read failure caused by `cancel` is given as a failure in the script. Within one atomic run the model does not link `closed` to later reads.
- Bytes to text. `String(buffer, 0, n)` and `toByteArray()` depend on the platform charset. Chunks are bytes in the session, and texts are strings in the manager.
- The service is not linked to the thread classes. The service keeps its own session records with a cancelled flag, and `MessageReceived` stands for a chunk delivered by that session's callback.
- The end of a stream is not seen by the service. The code has no handler for it, so no event stands for it.
- `listenUsingRfcommWithServiceRecord` and `createRfcommSocketToServiceRecord` failing at construction are not modelled. A null server socket is not modelled either; the listener always has one.
- `serverSocket.close()` throwing after the hand-off is not modelled separately. Its catch also ends the loop, so only the closed flag could differ.
- Initiator.ConnectThread.Run: requires that run has not happened yet. A Java thread can be started only once.
- Initiator.ConnectThread.Run: the SecurityException from stopping the scan is uncaught and ends the app process, with the service, its sessions and this socket; the model keeps the state reached just before the throw and does not model the process ending.
- Initiator.ConnectWithoutScanPermission: states the state just before that uncaught exception; after it the app process is gone.
- Controller.BluetoothController.OnReceive: when a new device is appended while the connect permission is missing on API 31 and later, reading its name for the log line throws an uncaught SecurityException that ends the app process; the model keeps the state reached just before the throw (the device appended).
- Initiator.ConnectThread.Run: `getDefaultAdapter()` returning null (no Bluetooth hardware) is not modelled; the adapter is always present.
- Controller.BluetoothController.StopDiscovery: `cancelDiscovery` is taken to throw exactly when the scan permission is missing on API 31 or later, as in `Initiator.ConnectThread.Run`. `unregisterReceiver` throws exactly when the receiver is not registered.
- The bonded devices come from the platform's set, so they repeat no address. This is an invariant of `Adapter`.
- `BluetoothController.release` is not modelled; it only calls `stopDiscovery` inside its own catch.
- Notifications and the foreground service (`BluetoothService.kt:96-137`) become a log of notified texts. `onBind` and `onStartCommand` are not modelled.
- The Room store (`CrisisLinkDatabase.kt`, `MessageDao.kt`) becomes an append to a log. The insert is asynchronous in the source. An insert launched after `serviceScope` is cancelled never runs, and the model keeps that. An insert launched before `onDestroy` but not yet run when the scope is cancelled may also be lost; the model treats every launch before `onDestroy` as completed. The model's `persisted` is the inserts in launch order; the store may complete them in another order, since they run on a thread pool and each takes its timestamp when it runs.
- Clock values (`System.currentTimeMillis()`) are opaque integers passed with each event. The SOS text formatting in `MainActivity.kt` is not modelled.
- The Compose UI and the permission screens are not part of this model.
