/** The bookkeeping of BluetoothService as values: its fields, each callback
    as one atomic step, and the properties every sequence of steps keeps. */
module ServiceModel {
  import opened Types

  /** A session (ConnectedThread) the service has installed, and whether it
      has been cancelled (its socket closed). */
  datatype InstalledSession = InstalledSession(socket: Socket, cancelled: bool)

  /** A `write` call on the session at index `session`. */
  datatype Write = Write(session: nat, text: string)

  /** The service's state. `current` is the index of `connectedThread` in
      `sessions`, the list of every session ever installed. `attempts` lists
      the devices a ConnectThread was started for; `writes`, `persisted` and
      `notified` are what was written to sessions, inserted into the message
      store and posted as notifications. `scopeCancelled` records that the
      coroutine scope running the store's inserts has been cancelled, after
      which a launched insert never runs. */
  datatype State = State(
    listenerCancelled: bool,
    sessions: seq<InstalledSession>,
    current: Option<nat>,
    connectedSocket: Option<Socket>,
    connectedDeviceName: Option<string>,
    lastSentMessage: Option<string>,
    attempts: seq<Device>,
    writes: seq<Write>,
    persisted: seq<Message>,
    notified: seq<string>,
    scopeCancelled: bool)

  /** What can happen to the service. `MessageReceived` is the callback of
      the session at index `session` delivering a decoded chunk at clock
      value `time`. */
  datatype Event =
    | SocketConnected(socket: Socket)
    | MessageReceived(session: nat, text: string, time: int)
    | SendMessage(text: string)
    | ConnectTo(device: Device)
    | Destroy

  /** The state right after `onCreate`: a listener is running, nothing else. */
  function Initial(): State
  {
    State(false, [], None, None, None, None, [], [], [], [], false)
  }

  /** `connectedThread?.cancel()`. */
  function CancelCurrent(sessions: seq<InstalledSession>, current: Option<nat>): (r: seq<InstalledSession>)
    ensures |r| == |sessions|
    ensures forall k :: 0 <= k < |r| ==>
      r[k].socket == sessions[k].socket
      && (r[k].cancelled <==> sessions[k].cancelled || current == Some(k))
  {
    match current
    case None => sessions
    case Some(k) =>
      if k < |sessions| then sessions[k := sessions[k].(cancelled := true)] else sessions
  }

  /** `onSocketConnected`: remember the socket and the remote's name (its
      address when the name is unknown), cancel the current session and
      install a new one for the socket. */
  function OnSocketConnected(s: State, socket: Socket): (r: State)
    ensures |r.sessions| == |s.sessions| + 1 && r.current == Some(|s.sessions|)
    ensures r.sessions[|s.sessions|] == InstalledSession(socket, false)
    ensures forall k :: 0 <= k < |s.sessions| ==>
      r.sessions[k].socket == s.sessions[k].socket
      && (r.sessions[k].cancelled <==> s.sessions[k].cancelled || s.current == Some(k))
    ensures r.connectedSocket == Some(socket)
    ensures r.connectedDeviceName == Some(if socket.remote.name.Some? then socket.remote.name.value else socket.remote.address)
    ensures r.lastSentMessage == s.lastSentMessage && r.listenerCancelled == s.listenerCancelled
    ensures r.persisted == s.persisted && r.notified == s.notified
    ensures r.writes == s.writes && r.attempts == s.attempts && r.scopeCancelled == s.scopeCancelled
  {
    s.(connectedSocket := Some(socket),
       connectedDeviceName := Some(DisplayName(socket.remote)),
       sessions := CancelCurrent(s.sessions, s.current) + [InstalledSession(socket, false)],
       current := Some(|s.sessions|))
  }

  /** The inbound callback of session `k`: a chunk equal to the last sent
      message clears that guard and is dropped; any other chunk is posted as
      a notification and, through a coroutine launched on the service's
      scope, persisted as a received record from the session's remote
      address. Once that scope is cancelled the launch never runs, so the
      notification is posted but nothing is persisted. */
  function OnMessageReceived(s: State, k: nat, text: string, time: int): (r: State)
    ensures k < |s.sessions| && s.lastSentMessage == Some(text) ==>
      r.persisted == s.persisted && r.notified == s.notified && r.lastSentMessage == None
    ensures k < |s.sessions| && s.lastSentMessage != Some(text) ==>
      && r.notified == s.notified + [text]
      && r.lastSentMessage == s.lastSentMessage
    ensures k < |s.sessions| && s.lastSentMessage != Some(text) && !s.scopeCancelled ==>
      r.persisted == s.persisted + [Message(0, text, "Remote", s.sessions[k].socket.remote.address, time, false, true)]
    ensures s.scopeCancelled ==> r.persisted == s.persisted
    ensures k >= |s.sessions| ==> r == s
    ensures r.sessions == s.sessions && r.current == s.current && r.connectedSocket == s.connectedSocket
    ensures r.connectedDeviceName == s.connectedDeviceName && r.listenerCancelled == s.listenerCancelled
    ensures r.writes == s.writes && r.attempts == s.attempts && r.scopeCancelled == s.scopeCancelled
  {
    if k >= |s.sessions| then s
    else if s.lastSentMessage == Some(text) then s.(lastSentMessage := None)
    else if s.scopeCancelled then s.(notified := s.notified + [text])
    else s.(notified := s.notified + [text],
            persisted := s.persisted + [ReceivedRecord(text, s.sessions[k].socket.remote.address, time)])
  }

  /** `sendMessageOverBluetooth`: arm the echo guard, even with no session,
      then write to the current session if there is one. */
  function SendMessageOverBluetooth(s: State, text: string): (r: State)
    ensures r.lastSentMessage == Some(text)
    ensures s.current.Some? ==> r.writes == s.writes + [Write(s.current.value, text)]
    ensures s.current.None? ==> r.writes == s.writes
    ensures r.persisted == s.persisted && r.notified == s.notified
    ensures r.sessions == s.sessions && r.current == s.current && r.connectedSocket == s.connectedSocket
    ensures r.connectedDeviceName == s.connectedDeviceName && r.listenerCancelled == s.listenerCancelled
    ensures r.attempts == s.attempts && r.scopeCancelled == s.scopeCancelled
  {
    s.(lastSentMessage := Some(text),
       writes := match s.current
                 case Some(k) => s.writes + [Write(k, text)]
                 case None => s.writes)
  }

  /** `connectToDevice`: cancel the current session, leaving `connectedThread`
      pointing at it, and start a ConnectThread for the device. */
  function ConnectToDevice(s: State, d: Device): (r: State)
    ensures r.attempts == s.attempts + [d]
    ensures |r.sessions| == |s.sessions|
    ensures forall k :: 0 <= k < |s.sessions| ==>
      r.sessions[k].socket == s.sessions[k].socket
      && (r.sessions[k].cancelled <==> s.sessions[k].cancelled || s.current == Some(k))
    ensures r.current == s.current && r.connectedSocket == s.connectedSocket
    ensures r.connectedDeviceName == s.connectedDeviceName && r.lastSentMessage == s.lastSentMessage
    ensures r.persisted == s.persisted && r.notified == s.notified && r.writes == s.writes
    ensures r.listenerCancelled == s.listenerCancelled && r.scopeCancelled == s.scopeCancelled
  {
    s.(sessions := CancelCurrent(s.sessions, s.current), attempts := s.attempts + [d])
  }

  /** `onDestroy`: cancel the listener, the current session and the
      coroutine scope that runs the store's inserts. */
  function OnDestroy(s: State): (r: State)
    ensures r.listenerCancelled && r.scopeCancelled
    ensures |r.sessions| == |s.sessions|
    ensures s.current.Some? && s.current.value < |s.sessions| ==> r.sessions[s.current.value].cancelled
    ensures forall k :: 0 <= k < |s.sessions| ==>
      r.sessions[k].socket == s.sessions[k].socket
      && (r.sessions[k].cancelled <==> s.sessions[k].cancelled || s.current == Some(k))
    ensures r.current == s.current && r.connectedSocket == s.connectedSocket
    ensures r.connectedDeviceName == s.connectedDeviceName && r.lastSentMessage == s.lastSentMessage
    ensures r.persisted == s.persisted && r.notified == s.notified && r.writes == s.writes
    ensures r.attempts == s.attempts
  {
    s.(listenerCancelled := true, sessions := CancelCurrent(s.sessions, s.current), scopeCancelled := true)
  }

  function Step(s: State, e: Event): State
  {
    match e
    case SocketConnected(socket) => OnSocketConnected(s, socket)
    case MessageReceived(k, text, time) => OnMessageReceived(s, k, text, time)
    case SendMessage(text) => SendMessageOverBluetooth(s, text)
    case ConnectTo(d) => ConnectToDevice(s, d)
    case Destroy => OnDestroy(s)
  }

  /** The state after the events of `events`, one after another. */
  function Run(s: State, events: seq<Event>): State
    decreases |events|
  {
    if events == [] then s else Run(Step(s, events[0]), events[1..])
  }

  lemma RunThree(s: State, a: Event, b: Event, c: Event)
    ensures Run(s, [a, b, c]) == Step(Step(Step(s, a), b), c)
  {
    var s1 := Step(s, a);
    var s2 := Step(s1, b);
    assert [a, b, c][1..] == [b, c];
    assert [b, c][1..] == [c];
    assert Run(s2, [c]) == Run(Step(s2, c), []);
    assert Run(s1, [b, c]) == Run(s2, [c]);
  }

  /** The chat screen's send: the service's send when the screen is bound to
      the service (`bound`), then a "sent" record for the text, stored
      whether or not the screen is bound and whether or not a session
      exists. An unbound screen skips the service, so the guard is not armed
      and nothing is written. */
  function ActivitySend(s: State, bound: bool, text: string, isEmergency: bool, time: int): (r: State)
    ensures r.persisted == s.persisted + [Message(0, text, "Me", "Local Device", time, isEmergency, false)]
    ensures r.notified == s.notified
    ensures bound ==> r.lastSentMessage == Some(text)
    ensures !bound ==> r.lastSentMessage == s.lastSentMessage && r.writes == s.writes
    ensures bound && s.current.Some? ==> r.writes == s.writes + [Write(s.current.value, text)]
    ensures s.current.None? ==> r.writes == s.writes
    ensures r.sessions == s.sessions && r.current == s.current && r.scopeCancelled == s.scopeCancelled
    ensures r.connectedSocket == s.connectedSocket && r.connectedDeviceName == s.connectedDeviceName
    ensures r.listenerCancelled == s.listenerCancelled && r.attempts == s.attempts
  {
    var t := if bound then SendMessageOverBluetooth(s, text) else s;
    t.(persisted := t.persisted + [SentRecord(text, isEmergency, time)])
  }

  /** The contents of the received records of `records`, in order. */
  function ReceivedContents(records: seq<Message>): seq<string>
  {
    if records == [] then []
    else ReceivedContents(records[..|records| - 1])
         + (var m := records[|records| - 1]; if m.isReceived then [m.content] else [])
  }

  lemma ReceivedContentsAppend(records: seq<Message>, m: Message)
    ensures ReceivedContents(records + [m])
         == ReceivedContents(records) + (if m.isReceived then [m.content] else [])
  {
    assert (records + [m])[..|records + [m]| - 1] == records;
  }

  /** Every record is either a received one from "Remote" that is not an
      emergency, or a sent one from "Me" at "Local Device". */
  predicate RecordsWellFormed(records: seq<Message>)
  {
    forall i :: 0 <= i < |records| ==>
      if records[i].isReceived
      then records[i].senderName == "Remote" && !records[i].isEmergency
      else records[i].senderName == "Me" && records[i].senderAddress == "Local Device"
  }

  /** The invariant of the service's bookkeeping: `connectedThread` is the last
      installed session and every older session is cancelled; the connected
      socket and device name describe that session and are unset before the
      first connection; the persisted received records are, in order, the
      first notifications, and until the scope is cancelled every
      notification has its persisted record. */
  predicate Inv(s: State)
  {
    && (s.current.None? <==> s.sessions == [])
    && (s.current.Some? ==> s.current.value == |s.sessions| - 1)
    && (forall k :: 0 <= k < |s.sessions| - 1 ==> s.sessions[k].cancelled)
    && (s.connectedSocket.Some? <==> s.sessions != [])
    && (s.connectedDeviceName.Some? <==> s.sessions != [])
    && (s.sessions != [] ==>
          && s.connectedSocket.value == s.sessions[|s.sessions| - 1].socket
          && s.connectedDeviceName.value == DisplayName(s.connectedSocket.value.remote))
    && RecordsWellFormed(s.persisted)
    && ReceivedContents(s.persisted) <= s.notified
    && (!s.scopeCancelled ==> ReceivedContents(s.persisted) == s.notified)
  }

  /** No two installed sessions are both live (uncancelled). */
  predicate AtMostOneLive(sessions: seq<InstalledSession>)
  {
    forall i, j ::
      (0 <= i < |sessions| && 0 <= j < |sessions| && !sessions[i].cancelled && !sessions[j].cancelled)
      ==> i == j
  }

  lemma InitialInv()
    ensures Inv(Initial())
  {
  }

  lemma InvAtMostOneLive(s: State)
    requires Inv(s)
    ensures AtMostOneLive(s.sessions)
    ensures forall k :: 0 <= k < |s.sessions| && !s.sessions[k].cancelled ==> s.current == Some(k)
  {
  }

  /** Every step keeps the invariant. */
  lemma StepKeepsInv(s: State, e: Event)
    requires Inv(s)
    ensures Inv(Step(s, e))
  {
    var r := Step(s, e);
    match e
    case SocketConnected(socket) =>
    case MessageReceived(k, text, time) =>
      if k < |s.sessions| && s.lastSentMessage != Some(text) && !s.scopeCancelled {
        var m := ReceivedRecord(text, s.sessions[k].socket.remote.address, time);
        ReceivedContentsAppend(s.persisted, m);
        assert r.persisted == s.persisted + [m];
      }
    case SendMessage(text) =>
    case ConnectTo(d) =>
    case Destroy =>
  }

  /** Along any sequence of events the invariant holds, so at no point are
      two installed sessions live. */
  lemma {:induction false} RunKeepsInv(s: State, events: seq<Event>)
    requires Inv(s)
    ensures Inv(Run(s, events))
    ensures AtMostOneLive(Run(s, events).sessions)
    decreases |events|
  {
    if events == [] {
      InvAtMostOneLive(s);
    } else {
      StepKeepsInv(s, events[0]);
      RunKeepsInv(Step(s, events[0]), events[1..]);
    }
  }

  /** The scope is cancelled after a run exactly when it was before or the
      run contains `onDestroy`. */
  lemma {:induction false} RunScopeCancelled(s: State, events: seq<Event>)
    ensures Run(s, events).scopeCancelled <==> s.scopeCancelled || Destroy in events
    decreases |events|
  {
    if events != [] {
      RunScopeCancelled(Step(s, events[0]), events[1..]);
      assert events == [events[0]] + events[1..];
    }
  }

  /** From start-up, every reachable state has at most one live session, the
      received records are a prefix of the notifications, and without
      `onDestroy` they match the notifications one for one. */
  lemma ReachableAtMostOneLive(events: seq<Event>)
    ensures AtMostOneLive(Run(Initial(), events).sessions)
    ensures ReceivedContents(Run(Initial(), events).persisted) <= Run(Initial(), events).notified
    ensures Destroy !in events ==>
      ReceivedContents(Run(Initial(), events).persisted) == Run(Initial(), events).notified
  {
    InitialInv();
    RunKeepsInv(Initial(), events);
    RunScopeCancelled(Initial(), events);
  }

  lemma RunFour(s: State, a: Event, b: Event, c: Event, d: Event)
    ensures Run(s, [a, b, c, d]) == Step(Step(Step(Step(s, a), b), c), d)
  {
    assert [a, b, c, d][1..] == [b, c, d];
    RunThree(Step(s, a), b, c, d);
  }

  /** A ConnectThread started by `connectToDevice` and still connecting when
      the service is destroyed installs its session afterwards; the chunks on
      it are notified but never persisted. */
  lemma ChunkAfterDestroyNotStored(x: Socket, t: string, time: int)
    ensures var r := Run(Initial(), [ConnectTo(x.remote), Destroy, SocketConnected(x), MessageReceived(0, t, time)]);
      && r.persisted == [] && r.notified == [t]
      && r.sessions == [InstalledSession(x, false)]
      && r.attempts == [x.remote]
  {
    RunFour(Initial(), ConnectTo(x.remote), Destroy, SocketConnected(x), MessageReceived(0, t, time));
  }

  /** Installing a socket cancels every earlier session: the new session is
      the only live one and the current one. */
  lemma ConnectLeavesOnlyNewLive(s: State, socket: Socket)
    requires Inv(s)
    ensures var r := OnSocketConnected(s, socket);
      && (forall k :: 0 <= k < |s.sessions| ==> r.sessions[k].cancelled)
      && r.current == Some(|r.sessions| - 1)
      && !r.sessions[|r.sessions| - 1].cancelled
      && AtMostOneLive(r.sessions)
  {
    var r := OnSocketConnected(s, socket);
    StepKeepsInv(s, SocketConnected(socket));
    InvAtMostOneLive(r);
  }

  /** The echo guard is single-use: after sending `t`, the first inbound `t`
      is dropped and the second one is notified once and, unless the scope
      is cancelled, persisted once. */
  lemma EchoGuardSingleUse(s: State, k: nat, t: string, time1: int, time2: int)
    requires k < |s.sessions|
    ensures var r := Run(s, [SendMessage(t), MessageReceived(k, t, time1), MessageReceived(k, t, time2)]);
      && r.persisted == s.persisted
           + (if s.scopeCancelled then [] else [ReceivedRecord(t, s.sessions[k].socket.remote.address, time2)])
      && r.notified == s.notified + [t]
      && r.lastSentMessage == None
  {
    RunThree(s, SendMessage(t), MessageReceived(k, t, time1), MessageReceived(k, t, time2));
    var s1 := SendMessageOverBluetooth(s, t);
    var s2 := OnMessageReceived(s1, k, t, time1);
    assert s2.lastSentMessage == None && s2.persisted == s.persisted && s2.notified == s.notified;
  }

  /** Sending `text` from a bound chat screen and receiving it back on
      session k stores only the sent record and posts no notification. From
      an unbound screen nothing is written and the guard is not armed, so
      unless it already held `text`, a chunk equal to `text` that arrives
      later is stored and notified as well. */
  lemma EchoOfOwnMessageStoresOnlySent(s: State, bound: bool, k: nat, text: string, isEmergency: bool, time1: int, time2: int)
    requires k < |s.sessions|
    ensures var r := OnMessageReceived(ActivitySend(s, bound, text, isEmergency, time1), k, text, time2);
      bound ==>
        && r.persisted == s.persisted + [SentRecord(text, isEmergency, time1)]
        && r.notified == s.notified
        && ReceivedContents(r.persisted) == ReceivedContents(s.persisted)
    ensures var r := OnMessageReceived(ActivitySend(s, bound, text, isEmergency, time1), k, text, time2);
      !bound && s.lastSentMessage != Some(text) && !s.scopeCancelled ==>
        && r.persisted == s.persisted + [SentRecord(text, isEmergency, time1),
                                         ReceivedRecord(text, s.sessions[k].socket.remote.address, time2)]
        && r.notified == s.notified + [text]
  {
    ReceivedContentsAppend(s.persisted, SentRecord(text, isEmergency, time1));
  }

  /** The guard is armed even without a session, so the first chunk equal to
      that text on a session installed later is dropped. */
  lemma GuardArmedWithoutSession(t: string, socket: Socket, time: int)
    ensures var r := Run(Initial(), [SendMessage(t), SocketConnected(socket), MessageReceived(0, t, time)]);
      && r.persisted == [] && r.notified == [] && r.writes == [] && r.lastSentMessage == None
  {
    RunThree(Initial(), SendMessage(t), SocketConnected(socket), MessageReceived(0, t, time));
  }

  /** Listener accepts from X, then the user connects to Y and the initiator
      succeeds: the X session is cancelled, the Y session is the only live
      one, and the device name is Y's. */
  lemma SwitchDevice(x: Socket, y: Socket)
    ensures var r := Run(Initial(), [SocketConnected(x), ConnectTo(y.remote), SocketConnected(y)]);
      && |r.sessions| == 2
      && r.sessions[0] == InstalledSession(x, true)
      && r.sessions[1] == InstalledSession(y, false)
      && r.connectedDeviceName == Some(DisplayName(y.remote))
      && r.attempts == [y.remote]
  {
    RunThree(Initial(), SocketConnected(x), ConnectTo(y.remote), SocketConnected(y));
  }
}
