/** The session thread (ConnectedThread): owns one connected socket, reads it
    in a blocking loop into a 1024-byte buffer and hands every non-empty read
    to its callback as one chunk; writes and closes swallow their I/O errors.

    The socket's input stream is modelled by a script: the outcome of each
    successive `read(buffer)` call, in order. */
module Session {
  import opened Types

  /** Size of the receive buffer. */
  const BufferSize: nat := 1024

  /** The outcome of one `inputStream.read(buffer)`: the bytes it placed at
      the start of the buffer (their number is the returned count, possibly
      zero), the end-of-stream value -1, or an IOException. */
  datatype ReadOutcome = Read(bytes: seq<bv8>) | EndOfStream | ReadFailure

  /** The count `read` returns. */
  function ReadCount(o: ReadOutcome): int
    requires !o.ReadFailure?
  {
    match o
    case Read(b) => |b|
    case EndOfStream => -1
  }

  /** `read(buffer)` never stores more bytes than the buffer holds. */
  predicate Fits(script: seq<ReadOutcome>)
  {
    forall i :: 0 <= i < |script| && script[i].Read? ==> |script[i].bytes| <= BufferSize
  }

  /** Position of the first failing read, or |script| when none fails. */
  function FirstFailure(script: seq<ReadOutcome>): (k: nat)
    ensures k <= |script|
    ensures k < |script| ==> script[k].ReadFailure?
    ensures forall j :: 0 <= j < k ==> !script[j].ReadFailure?
  {
    if script == [] || script[0].ReadFailure? then 0
    else 1 + FirstFailure(script[1..])
  }

  /** Number of script entries the receive loop consumes: everything up to
      and including the first failure. */
  function Consumed(script: seq<ReadOutcome>): (n: nat)
    ensures n <= |script|
    ensures n < |script| ==> n > 0 && script[n - 1].ReadFailure?
    ensures forall j :: 0 <= j < n - 1 ==> !script[j].ReadFailure?
  {
    var k := FirstFailure(script);
    if k < |script| then k + 1 else |script|
  }

  /** The chunks the receive loop hands to its callback: one per read with a
      positive count, in order, and none from the first failure on. */
  function Chunks(script: seq<ReadOutcome>): (r: seq<seq<bv8>>)
    ensures forall c :: c in r ==> |c| >= 1
    ensures |r| <= |script|
  {
    if script == [] then []
    else
      match script[0]
      case ReadFailure => []
      case EndOfStream => Chunks(script[1..])
      case Read(b) => (if |b| > 0 then [b] else []) + Chunks(script[1..])
  }

  /** Reference definition without failure semantics: the byte runs of all
      positive-count reads of `script`, in order. */
  function PositiveReads(script: seq<ReadOutcome>): seq<seq<bv8>>
  {
    if script == [] then []
    else PositiveReads(script[..|script| - 1])
         + (var o := script[|script| - 1]; if o.Read? && |o.bytes| > 0 then [o.bytes] else [])
  }

  /** Appending reads after a failure-free prefix appends their chunks. */
  lemma {:induction false} ChunksAppend(a: seq<ReadOutcome>, b: seq<ReadOutcome>)
    requires forall j :: 0 <= j < |a| ==> !a[j].ReadFailure?
    ensures Chunks(a + b) == Chunks(a) + Chunks(b)
  {
    if a != [] {
      assert (a + b)[1..] == a[1..] + b;
      ChunksAppend(a[1..], b);
    } else {
      assert a + b == b;
    }
  }

  /** Once a read fails nothing later in the script is consumed or emitted. */
  lemma {:induction false} FailureEndsLoop(pre: seq<ReadOutcome>, rest: seq<ReadOutcome>)
    requires FirstFailure(pre) < |pre|
    ensures Chunks(pre + rest) == Chunks(pre)
    ensures Consumed(pre + rest) == Consumed(pre)
  {
    if !pre[0].ReadFailure? {
      assert (pre + rest)[1..] == pre[1..] + rest;
      FailureEndsLoop(pre[1..], rest);
    }
  }

  /** The emitted chunks are exactly the positive-count reads that come
      before the first failure, in order. */
  lemma {:induction false} ChunksArePositiveReads(script: seq<ReadOutcome>)
    ensures Chunks(script) == PositiveReads(script[..FirstFailure(script)])
  {
    if script == [] {
    } else if script[0].ReadFailure? {
    } else {
      var k := FirstFailure(script);
      ChunksArePositiveReads(script[1..]);
      PositiveReadsCons(script[0], script[1..][..k - 1]);
      assert [script[0]] + script[1..][..k - 1] == script[..k];
    }
  }

  lemma {:induction false} PositiveReadsCons(o: ReadOutcome, s: seq<ReadOutcome>)
    ensures PositiveReads([o] + s)
         == (if o.Read? && |o.bytes| > 0 then [o.bytes] else []) + PositiveReads(s)
    decreases |s|
  {
    if s == [] {
      assert ([o] + s)[..|[o] + s| - 1] == [];
    } else {
      var init := s[..|s| - 1];
      assert ([o] + s)[..|[o] + s| - 1] == [o] + init;
      PositiveReadsCons(o, init);
    }
  }

  /** Every emitted chunk holds between 1 and BufferSize bytes. */
  lemma {:induction false} ChunksFitBuffer(script: seq<ReadOutcome>)
    requires Fits(script)
    ensures forall c :: c in Chunks(script) ==> 1 <= |c| <= BufferSize
  {
    if script != [] {
      assert Fits(script[1..]) by {
        forall i | 0 <= i < |script[1..]| && script[1..][i].Read?
          ensures |script[1..][i].bytes| <= BufferSize
        {
          assert script[1..][i] == script[i + 1];
        }
      }
      ChunksFitBuffer(script[1..]);
    }
  }

  /** A read that returns zero or -1 emits nothing and the loop goes on to the
      next read. */
  lemma NonPositiveReadEmitsNothing(o: ReadOutcome, rest: seq<ReadOutcome>)
    requires !o.ReadFailure? && ReadCount(o) <= 0
    ensures Chunks([o] + rest) == Chunks(rest)
  {
    assert ([o] + rest)[1..] == rest;
  }

  /** One more read before the first failure adds its chunk, if any. */
  lemma ChunksStep(script: seq<ReadOutcome>, i: nat)
    requires i < FirstFailure(script)
    ensures Chunks(script[..i + 1])
         == Chunks(script[..i]) + (if script[i].Read? && |script[i].bytes| > 0 then [script[i].bytes] else [])
  {
    assert script[..i] + [script[i]] == script[..i + 1];
    ChunksAppend(script[..i], [script[i]]);
    assert [script[i]][1..] == [];
  }

  /** The read at the first failure ends the loop with everything emitted. */
  lemma ChunksAtFailure(script: seq<ReadOutcome>, i: nat)
    requires i <= FirstFailure(script) && i < |script| && script[i].ReadFailure?
    ensures Chunks(script) == Chunks(script[..i])
    ensures Consumed(script) == i + 1
  {
    assert script[..i] + script[i..] == script;
    ChunksAppend(script[..i], script[i..]);
  }

  class ConnectedThread {
    const socket: Socket
    const buffer: array<bv8>
    /** The socket has been closed. */
    var closed: bool
    /** `onMessageReceived != null`. */
    var hasCallback: bool
    /** The arguments of every callback invocation, in order. */
    var emitted: seq<seq<bv8>>
    /** The strings that reached the output stream, in order. */
    var sent: seq<string>

    ghost predicate Valid()
      reads this
    {
      buffer.Length == BufferSize
    }

    constructor (socket: Socket)
      ensures Valid() && fresh(buffer)
      ensures this.socket == socket && !closed && !hasCallback
      ensures emitted == [] && sent == []
    {
      this.socket := socket;
      buffer := new bv8[BufferSize];
      closed := false;
      hasCallback := false;
      emitted := [];
      sent := [];
    }

    /** Assigns or clears `onMessageReceived`. */
    method SetCallback(present: bool)
      modifies this
      ensures hasCallback == present
      ensures closed == old(closed) && emitted == old(emitted) && sent == old(sent)
    {
      hasCallback := present;
    }

    /** The receive loop. The source loops until a read throws; here the loop
        also stops when the script runs out, which stands for a read that is
        still blocked. Returns how many reads were made. */
    method Run(script: seq<ReadOutcome>) returns (readCalls: nat)
      requires Valid() && Fits(script)
      modifies this, buffer
      ensures Valid()
      ensures readCalls == Consumed(script)
      ensures emitted == old(emitted) + (if hasCallback then Chunks(script) else [])
      ensures closed == old(closed) && hasCallback == old(hasCallback) && sent == old(sent)
    {
      var i := 0;
      while i < |script|
        invariant 0 <= i <= FirstFailure(script)
        invariant emitted == old(emitted) + (if hasCallback then Chunks(script[..i]) else [])
        invariant closed == old(closed) && hasCallback == old(hasCallback) && sent == old(sent)
      {
        if script[i].ReadFailure? {
          // IOException: logged, and the loop ends
          ChunksAtFailure(script, i);
          return i + 1;
        }
        var bytesRead := ReadInto(script[i]);
        if bytesRead > 0 {
          var message := buffer[..bytesRead];
          if hasCallback {
            emitted := emitted + [message];
          }
        }
        ChunksStep(script, i);
        i := i + 1;
      }
      assert script[..i] == script;
      return i;
    }

    /** `inputStream.read(buffer)` for a read that does not fail. */
    method ReadInto(outcome: ReadOutcome) returns (count: int)
      requires Valid() && !outcome.ReadFailure?
      requires outcome.Read? ==> |outcome.bytes| <= BufferSize
      modifies buffer
      ensures count == ReadCount(outcome)
      ensures count > 0 ==> buffer[..count] == outcome.bytes
    {
      count := ReadCount(outcome);
      if outcome.Read? {
        forall k | 0 <= k < count {
          buffer[k] := outcome.bytes[k];
        }
      }
    }

    /** `write`: the bytes reach the stream unless the socket is closed or the
        stream fails; a failure is logged and never reaches the caller. */
    method Write(data: string, streamFails: bool)
      modifies this
      ensures sent == old(sent) + (if !closed && !streamFails then [data] else [])
      ensures closed == old(closed) && hasCallback == old(hasCallback) && emitted == old(emitted)
    {
      if !closed && !streamFails {
        sent := sent + [data];
      }
    }

    /** `cancel`: closes the socket; closing again is harmless and any error
        is logged and swallowed. */
    method Cancel()
      modifies this
      ensures closed
      ensures hasCallback == old(hasCallback) && emitted == old(emitted) && sent == old(sent)
    {
      closed := true;
    }
  }

  /** A thread without a callback reads the whole script and emits nothing. */
  method ReadWithoutCallback(socket: Socket, script: seq<ReadOutcome>) returns (chunks: seq<seq<bv8>>, readCalls: nat)
    requires Fits(script)
    ensures chunks == [] && readCalls == Consumed(script)
  {
    var t := new ConnectedThread(socket);
    readCalls := t.Run(script);
    chunks := t.emitted;
  }

  /** Cancelling twice leaves the socket closed, and a write after it never
      reaches the stream nor fails the caller. */
  method CancelTwiceThenWrite(socket: Socket, data: string) returns (closed: bool, sent: seq<string>)
    ensures closed && sent == []
  {
    var t := new ConnectedThread(socket);
    t.Cancel();
    t.Cancel();
    t.Write(data, false);
    closed, sent := t.closed, t.sent;
  }
}
