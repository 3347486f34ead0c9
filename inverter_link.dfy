/**
 * The buffered link to one inverter (class Inverter: send, receive, disconnect).
 *
 * The connection is seen from the application's side. Bytes the inverter writes are appended to
 * `incoming` (the socket's receive queue together with the buffered reader over it) and `receive`
 * consumes them from the front; bytes the application sends are appended to `outgoing`.
 */
module InverterLink {
  import opened Bytes
  import opened InverterCodec

  /** State of one operating-system resource. */
  datatype Endpoint = Open | Closed

  datatype LinkError =
    | InverterEOF        // the inverter closed before any byte of a frame arrived
    | Truncated          // the inverter closed in the middle of a frame
    | InvalidStart       // a frame did not start with 55 aa
    | ChecksumMismatch   // a whole frame arrived whose checksum is wrong
    | ReaderClosed       // the buffered reader was closed on this side
    | SocketClosed       // the socket was closed on this side
    | BrokenPipe         // the inverter closed the connection, so a write fails

  /** What one call of receive gives. */
  datatype Received =
    | Message(identifier: Identifier, payload: Payload)
    | Pending                 // not a whole frame yet: the call blocks until more bytes arrive
    | Failed(error: LinkError)

  datatype SendStatus = Sent | SendFailed(error: LinkError)

  /**
   * One receive step on an open reader: what it returns and what stays buffered, given the
   * buffered bytes `stream` and whether the inverter may still send (`peerOpen`).
   */
  function ReceiveStep(stream: seq<byte>, peerOpen: bool): (Received, seq<byte>)
  {
    match ReadMessage(stream)
    case Parsed(identifier, payload, tail) => (Message(identifier, payload), tail)
    case NeedMore =>
      if peerOpen then (Pending, stream)
      else (Failed(if stream == [] then InverterEOF else Truncated), [])
    case BadStart => (Failed(InvalidStart), stream[2..])
    case BadChecksum(tail) => (Failed(ChecksumMismatch), tail)
  }

  /** A step that blocks found only the start of a frame and left the buffer as it was. */
  lemma PendingStep(stream: seq<byte>, peerOpen: bool)
    requires ReceiveStep(stream, peerOpen).0 == Pending
    ensures ReadMessage(stream) == NeedMore && peerOpen && ReceiveStep(stream, peerOpen).1 == stream
  {
  }

  /**
   * A step never adds to the buffer. A message takes exactly its frame off the front, a bad start
   * drops the two octets, and blocking leaves the buffer as it was.
   */
  lemma ReceiveStepConsumes(stream: seq<byte>, peerOpen: bool)
    ensures var (r, rest) := ReceiveStep(stream, peerOpen);
            && |rest| <= |stream|
            && (r.Message? ==> stream == Construct(r.identifier, r.payload) + rest)
            && (r == Pending ==> peerOpen && rest == stream)
            && (r == Failed(InvalidStart) ==> rest == stream[2..])
  {
    if ReadMessage(stream).Parsed? {
      ReadSound(stream);
    }
  }

  /** One more incomplete prefix extends the run of incomplete prefixes. */
  lemma NeedMoreExtends(start: seq<byte>, arrivals: seq<seq<byte>>, fed: nat)
    requires fed < |arrivals|
    requires forall j :: 0 <= j < fed ==> ReadMessage(start + Flatten(arrivals[..j])) == NeedMore
    requires ReadMessage(start + Flatten(arrivals[..fed])) == NeedMore
    ensures forall j :: 0 <= j < fed + 1 ==> ReadMessage(start + Flatten(arrivals[..j])) == NeedMore
  {
  }

  class Inverter {
    var socket: Endpoint
    var reader: Endpoint
    var peerOpen: bool
    var incoming: seq<byte>
    var outgoing: seq<byte>

    /** Inverter(sock, addr): a link over a connection that has just been established. */
    constructor ()
      ensures socket == Open && reader == Open && peerOpen
      ensures incoming == [] && outgoing == []
    {
      socket, reader, peerOpen := Open, Open, true;
      incoming, outgoing := [], [];
    }

    /** The inverter writes `chunk`; once it has closed its side nothing more arrives. */
    method Arrive(chunk: seq<byte>)
      modifies this
      ensures incoming == if old(peerOpen) then old(incoming) + chunk else old(incoming)
      ensures socket == old(socket) && reader == old(reader) && peerOpen == old(peerOpen)
      ensures outgoing == old(outgoing)
    {
      if peerOpen {
        incoming := incoming + chunk;
      }
    }

    /** The inverter closes its end of the connection. */
    method PeerClose()
      modifies this
      ensures !peerOpen
      ensures socket == old(socket) && reader == old(reader)
      ensures incoming == old(incoming) && outgoing == old(outgoing)
    {
      peerOpen := false;
    }

    /** send: writes one whole frame, or fails when either side has closed the connection. */
    method Send(identifier: Identifier, payload: Payload) returns (status: SendStatus)
      modifies this
      ensures status == (if old(socket) == Closed then SendFailed(SocketClosed)
                         else if !old(peerOpen) then SendFailed(BrokenPipe)
                         else Sent)
      ensures outgoing == if status == Sent then old(outgoing) + Construct(identifier, payload)
                          else old(outgoing)
      ensures socket == old(socket) && reader == old(reader) && peerOpen == old(peerOpen)
      ensures incoming == old(incoming)
    {
      if socket == Closed {
        status := SendFailed(SocketClosed);
      } else if !peerOpen {
        status := SendFailed(BrokenPipe);
      } else {
        outgoing := outgoing + Construct(identifier, payload);
        status := Sent;
      }
    }

    /** receive: takes one whole frame off the front of what has arrived. */
    method Receive() returns (r: Received)
      modifies this
      ensures old(reader) == Closed ==> r == Failed(ReaderClosed) && incoming == old(incoming)
      ensures old(reader) == Open ==> (r, incoming) == ReceiveStep(old(incoming), old(peerOpen))
      ensures socket == old(socket) && reader == old(reader) && peerOpen == old(peerOpen)
      ensures outgoing == old(outgoing)
    {
      if reader == Closed {
        return Failed(ReaderClosed);
      }
      match ReadMessage(incoming)
      case Parsed(identifier, payload, tail) =>
        r := Message(identifier, payload);
        incoming := tail;
      case NeedMore =>
        if peerOpen {
          r := Pending;
        } else {
          r := Failed(if incoming == [] then InverterEOF else Truncated);
          incoming := [];
        }
      case BadStart =>
        r := Failed(InvalidStart);
        incoming := incoming[2..];
      case BadChecksum(tail) =>
        r := Failed(ChecksumMismatch);
        incoming := tail;
    }

    /**
     * A blocking receive while the inverter writes the chunks `arrivals` one after another:
     * receive is retried after each chunk until it gives more than Pending. `fed` is how many
     * chunks arrived before it returned.
     */
    method ReceiveWhileArriving(arrivals: seq<seq<byte>>) returns (r: Received, fed: nat)
      modifies this
      ensures fed <= |arrivals| && (r == Pending ==> fed == |arrivals|)
      ensures old(reader) == Open && old(peerOpen) ==>
                && (forall j :: 0 <= j < fed ==> ReadMessage(old(incoming) + Flatten(arrivals[..j])) == NeedMore)
                && (r, incoming) == ReceiveStep(old(incoming) + Flatten(arrivals[..fed]), true)
      ensures !(old(reader) == Open && old(peerOpen)) ==> fed == 0 && r != Pending
      ensures r.Message? ==>
                old(incoming) + Flatten(arrivals[..fed]) == Construct(r.identifier, r.payload) + incoming
      ensures socket == old(socket) && reader == old(reader) && peerOpen == old(peerOpen)
      ensures outgoing == old(outgoing)
    {
      ghost var start := incoming;
      assert arrivals[..0] == [];
      assert start + Flatten(arrivals[..0]) == start;
      r := Receive();
      fed := 0;
      if !(reader == Open && peerOpen) {
        if r.Message? {
          ReadSound(start);
        }
        return;
      }
      while r == Pending && fed < |arrivals|
        invariant fed <= |arrivals|
        invariant socket == old(socket) && reader == Open && peerOpen && outgoing == old(outgoing)
        invariant forall j :: 0 <= j < fed ==> ReadMessage(start + Flatten(arrivals[..j])) == NeedMore
        invariant (r, incoming) == ReceiveStep(start + Flatten(arrivals[..fed]), true)
      {
        ghost var before := start + Flatten(arrivals[..fed]);
        PendingStep(before, true);
        NeedMoreExtends(start, arrivals, fed);
        Arrive(arrivals[fed]);
        FlattenStep(arrivals, fed);
        ghost var after := start + Flatten(arrivals[..fed + 1]);
        assert incoming == after;
        r := Receive();
        assert (r, incoming) == ReceiveStep(after, true);
        fed := fed + 1;
      }
      if r.Message? {
        ReadSound(start + Flatten(arrivals[..fed]));
      }
    }

    /** The application closes its own socket. */
    method CloseSocket()
      modifies this
      ensures socket == Closed && reader == old(reader) && peerOpen == old(peerOpen)
      ensures incoming == old(incoming) && outgoing == old(outgoing)
    {
      socket := Closed;
    }

    /** The application closes the buffered reader over the socket. */
    method CloseReader()
      modifies this
      ensures reader == Closed && socket == old(socket) && peerOpen == old(peerOpen)
      ensures incoming == old(incoming) && outgoing == old(outgoing)
    {
      reader := Closed;
    }

    /**
     * disconnect: closes the reader and the socket. It cannot fail, whatever was closed before,
     * so calling it again is a no-op.
     */
    method Disconnect()
      modifies this
      ensures socket == Closed && reader == Closed
      ensures peerOpen == old(peerOpen) && incoming == old(incoming) && outgoing == old(outgoing)
      ensures old(socket) == Closed && old(reader) == Closed ==> unchanged(this)
    {
      if reader == Open {
        reader := Closed;
      }
      if socket == Open {
        socket := Closed;
      }
    }
  }

  /** The sample message of the link tests: identifier 00 01 02, empty payload. */
  const Sample: seq<byte> := [0x55, 0xAA, 0x00, 0x01, 0x02, 0x00, 0x00, 0x01, 0x02]

  /** Two sample frames written at once are received one per call, in order. */
  method MultipleMessagesReceivedAtOnce() returns (first: Received, second: Received, left: seq<byte>)
    ensures first == Message([0x00, 0x01, 0x02], []) && second == first && left == []
  {
    var link := new Inverter();
    link.Arrive(Sample + Sample);
    EmptyPayloadVector();
    ReadConstructed([0x00, 0x01, 0x02], [], Sample);
    assert ReadMessage(Sample + Sample) == Parsed([0x00, 0x01, 0x02], [], Sample);
    assert ReceiveStep(Sample + Sample, true) == (Message([0x00, 0x01, 0x02], []), Sample);
    assert link.reader == Open && link.peerOpen && link.incoming == Sample + Sample;
    first := link.Receive();
    assert first == Message([0x00, 0x01, 0x02], []);
    assert link.incoming == Sample;
    ReadConstructed([0x00, 0x01, 0x02], [], []);
    assert Sample + [] == Sample;
    assert ReadMessage(Sample) == Parsed([0x00, 0x01, 0x02], [], []);
    second := link.Receive();
    left := link.incoming;
  }

  /** The sample frame cut as in the link tests: 1, 2, 4 and 2 octets. */
  const SampleChunks: seq<seq<byte>> := [Sample[0..1], Sample[1..3], Sample[3..7], Sample[7..]]

  /** Every strict prefix of the chunked sample is incomplete; all four chunks are one frame. */
  lemma SampleChunksRead()
    ensures forall j :: 0 <= j < 4 ==> ReadMessage(Flatten(SampleChunks[..j])) == NeedMore
    ensures ReceiveStep(Flatten(SampleChunks[..4]), true) == (Message([0x00, 0x01, 0x02], []), [])
  {
    var c := SampleChunks;
    assert c[..0] == [];
    FlattenStep(c, 0);
    FlattenStep(c, 1);
    FlattenStep(c, 2);
    FlattenStep(c, 3);
    assert Flatten(c[..1]) == Sample[..1];
    assert Flatten(c[..2]) == Sample[..3];
    assert Flatten(c[..3]) == Sample[..7];
    assert Flatten(c[..4]) == Sample;
    EmptyPayloadVector();
    ReadPrefix([0x00, 0x01, 0x02], [], 0);
    ReadPrefix([0x00, 0x01, 0x02], [], 1);
    ReadPrefix([0x00, 0x01, 0x02], [], 3);
    ReadPrefix([0x00, 0x01, 0x02], [], 7);
    ReadConstructed([0x00, 0x01, 0x02], [], []);
    assert Sample + [] == Sample;
  }

  /** The sample frame arriving in four pieces is received whole, after the last piece. */
  method ChoppedMessage() returns (r: Received, fed: nat)
    ensures r == Message([0x00, 0x01, 0x02], []) && fed == 4
  {
    var link := new Inverter();
    r, fed := link.ReceiveWhileArriving(SampleChunks);
    SampleChunksRead();
    assert forall j :: 0 <= j <= 4 ==> [] + Flatten(SampleChunks[..j]) == Flatten(SampleChunks[..j]);
  }

  /** receive after the inverter closed an idle connection fails with InverterEOF. */
  method EofOnReceive() returns (r: Received)
    ensures r == Failed(InverterEOF)
  {
    var link := new Inverter();
    link.PeerClose();
    r := link.Receive();
  }

  /** send after the inverter closed the connection fails instead of succeeding silently. */
  method EofOnSend() returns (status: SendStatus, written: seq<byte>)
    ensures status == SendFailed(BrokenPipe) && written == []
  {
    var link := new Inverter();
    link.PeerClose();
    status := link.Send([0x00, 0x01, 0x02], []);
    written := link.outgoing;
  }

  /** send of identifier 00 01 02 with an empty payload writes exactly the sample message. */
  method SendWritesFrame() returns (status: SendStatus, written: seq<byte>)
    ensures status == Sent && written == Sample
  {
    var link := new Inverter();
    status := link.Send([0x00, 0x01, 0x02], []);
    written := link.outgoing;
    EmptyPayloadVector();
  }

  /** disconnect twice, or after both sides and both resources were closed, ends closed. */
  method DisconnectIsIdempotent() returns (socket: Endpoint, reader: Endpoint, again: Endpoint)
    ensures socket == Closed && reader == Closed && again == Closed
  {
    var link := new Inverter();
    link.Disconnect();
    link.Disconnect();
    socket, reader := link.socket, link.reader;
    var other := new Inverter();
    other.PeerClose();
    other.CloseSocket();
    other.CloseReader();
    other.Disconnect();
    again := other.socket;
  }
}
