/** The listener thread (AcceptThread): holds a server socket registered under
    the app's service record, blocks in `accept`, hands the first accepted
    socket to its callback, closes the server socket and stops. */
module Listener {
  import opened Types

  /** The outcome of the blocking `serverSocket.accept()`. */
  datatype AcceptOutcome = Accepted(socket: Socket) | AcceptFailed

  /** The calls the listener makes, in order. */
  datatype Step = Accept | Callback | CloseServer

  class AcceptThread {
    /** The `running` flag of the loop. */
    var running: bool
    /** The server socket has been closed. */
    var serverClosed: bool
    /** The sockets handed to `onSocketConnected`, in order. */
    var handedOff: seq<Socket>
    /** Number of `accept` calls made. */
    var acceptCalls: nat
    /** The calls made so far. */
    var steps: seq<Step>

    /** At most one hand-off ever happens, and once it has the loop is over
        and the server socket is closed. */
    ghost predicate Valid()
      reads this
    {
      && |handedOff| <= 1
      && |handedOff| <= acceptCalls
      && (handedOff != [] ==> !running && serverClosed)
      && (!running ==> acceptCalls <= 1)
      && (running ==> acceptCalls == 0)
    }

    constructor ()
      ensures Valid()
      ensures running && !serverClosed && handedOff == [] && acceptCalls == 0 && steps == []
    {
      steps := [];
      running := true;
      serverClosed := false;
      handedOff := [];
      acceptCalls := 0;
    }

    /** `run`: while `running`, accept once; on success call back, close the
        server socket and stop; on failure stop without retrying. An accept
        on a closed server socket fails. */
    method Run(accept: AcceptOutcome)
      requires Valid()
      modifies this
      ensures Valid() && !running
      ensures acceptCalls == old(acceptCalls) + (if old(running) then 1 else 0)
      ensures handedOff == old(handedOff)
          + (if old(running) && !old(serverClosed) && accept.Accepted? then [accept.socket] else [])
      ensures serverClosed == (old(serverClosed) || handedOff != old(handedOff))
      ensures steps == old(steps)
          + (if !old(running) then []
             else if !old(serverClosed) && accept.Accepted? then [Accept, Callback, CloseServer]
             else [Accept])
    {
      while running
        invariant Valid()
        invariant acceptCalls == old(acceptCalls) + (if old(running) && !running then 1 else 0)
        invariant handedOff == old(handedOff)
          + (if old(running) && !running && !old(serverClosed) && accept.Accepted? then [accept.socket] else [])
        invariant serverClosed == (old(serverClosed) || handedOff != old(handedOff))
        invariant !old(running) ==> !running
        invariant steps == old(steps)
          + (if old(running) == running then []
             else if !old(serverClosed) && accept.Accepted? then [Accept, Callback, CloseServer]
             else [Accept])
        decreases if running then 1 else 0
      {
        acceptCalls := acceptCalls + 1;
        steps := steps + [Accept];
        if !serverClosed && accept.Accepted? {
          handedOff := handedOff + [accept.socket];
          steps := steps + [Callback, CloseServer];
          serverClosed := true;
          running := false;
        } else {
          // IOException: logged, and the loop ends
          running := false;
        }
      }
    }

    /** `cancel`: clears `running` and closes the server socket; an error
        from closing is swallowed, so calling it again changes nothing. */
    method Cancel()
      requires Valid()
      modifies this
      ensures Valid() && !running && serverClosed
      ensures handedOff == old(handedOff)
      ensures acceptCalls == old(acceptCalls)
      ensures steps == old(steps) + [CloseServer]
    {
      running := false;
      steps := steps + [CloseServer];
      serverClosed := true;
    }
  }

  /** A listener cancelled before it runs never accepts and never calls back. */
  method CancelBeforeRun(accept: AcceptOutcome) returns (callbacks: nat, acceptCalls: nat)
    ensures callbacks == 0 && acceptCalls == 0
  {
    var t := new AcceptThread();
    t.Cancel();
    t.Run(accept);
    callbacks, acceptCalls := |t.handedOff|, t.acceptCalls;
  }

  /** Running a listener again after it returned calls back no second time,
      whatever the second accept would yield. */
  method RunTwice(first: AcceptOutcome, second: AcceptOutcome) returns (handedOff: seq<Socket>)
    ensures handedOff == if first.Accepted? then [first.socket] else []
  {
    var t := new AcceptThread();
    t.Run(first);
    t.Run(second);
    handedOff := t.handedOff;
  }

  /** Cancelling twice leaves the listener stopped and closed. */
  method CancelTwice() returns (running: bool, serverClosed: bool)
    ensures !running && serverClosed
  {
    var t := new AcceptThread();
    t.Cancel();
    t.Cancel();
    running, serverClosed := t.running, t.serverClosed;
  }
}
