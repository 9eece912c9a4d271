/** Logical packet framing and the receive path of a client connection: decode, append, drain. */
module LogicalStream {
  import opened Bytes
  import opened Lzss
  import opened LzssRoundTrip
  import opened LzssCodec

  datatype Frame = Frame(opcode: byte, payload: bytes)

  const MAX_PAYLOAD := 0xFF

  /** None stands for the exception thrown when the payload length does not fit in its byte. */
  function Serialize(f: Frame): Option<bytes> {
    if |f.payload| > MAX_PAYLOAD then None else Some([f.opcode, |f.payload|] + f.payload)
  }

  function FrameLength(buffer: bytes): nat
    requires |buffer| >= 2
  {
    2 + (buffer[1] as int)
  }

  datatype Popped = Popped(frame: Frame, rest: bytes)

  /** The first complete frame of the buffer and what follows it. */
  function TryPop(buffer: bytes): Option<Popped> {
    if |buffer| < 2 then None
    else
      var frameLength := FrameLength(buffer);
      if |buffer| < frameLength then None
      else Some(Popped(Frame(buffer[0], buffer[2..frameLength]), buffer[frameLength..]))
  }

  datatype Drained = Drained(frames: seq<Frame>, rest: bytes)

  function Drain(buffer: bytes): Drained {
    match TryPop(buffer)
    case None => Drained([], buffer)
    case Some(p) => var d := Drain(p.rest); Drained([p.frame] + d.frames, d.rest)
  }

  /** The receiving half of a connection, and what one received chunk does to it. */
  datatype Receiver = Receiver(decoder: Dec, buffer: bytes)

  datatype Received = Received(receiver: Receiver, frames: seq<Frame>)

  function Receive(r: Receiver, chunk: bytes): Received {
    var d := Feed(r.decoder, chunk);
    RunExtends(r.decoder.(pending := r.decoder.pending + chunk));
    var decoded := NewBytes(r.decoder, d);
    if decoded == [] then Received(Receiver(d, r.buffer), [])
    else var drained := Drain(r.buffer + decoded); Received(Receiver(d, drained.rest), drained.frames)
  }

  function ReceiveAll(r: Receiver, chunks: seq<bytes>): Received
    decreases chunks
  {
    if chunks == [] then Received(r, [])
    else
      var first := Receive(r, chunks[0]);
      var later := ReceiveAll(first.receiver, chunks[1..]);
      Received(later.receiver, first.frames + later.frames)
  }

  const CONNECTED := Receiver(FRESH, [])

  // ---------------------------------------------------------------- framing

  lemma {:induction false} DrainAppend(a: bytes, b: bytes)
    ensures Drain(a + b) == Drained(Drain(a).frames + Drain(Drain(a).rest + b).frames, Drain(Drain(a).rest + b).rest)
    decreases |a|
  {
    if TryPop(a).Some? {
      var p := TryPop(a).value;
      var n := FrameLength(a);
      assert (a + b)[2..n] == a[2..n] && (a + b)[n..] == p.rest + b;
      DrainAppend(p.rest, b);
      Regroup([p.frame], Drain(p.rest).frames, Drain(Drain(p.rest).rest + b).frames);
    }
  }

  /** What is left after draining holds no complete frame. */
  lemma {:induction false} DrainSettles(buffer: bytes)
    ensures TryPop(Drain(buffer).rest) == None
  {
    if TryPop(buffer).Some? { DrainSettles(TryPop(buffer).value.rest); }
  }

  predicate Fits(frames: seq<Frame>) { forall f <- frames :: |f.payload| <= MAX_PAYLOAD }

  function SerializeAll(frames: seq<Frame>): (calls: seq<bytes>)
    requires Fits(frames)
    ensures |calls| == |frames|
    ensures forall i :: 0 <= i < |frames| ==> Serialize(frames[i]) == Some(calls[i])
  {
    if frames == [] then [] else [Serialize(frames[0]).value] + SerializeAll(frames[1..])
  }

  lemma DrainFirst(f: Frame, later: bytes)
    requires |f.payload| <= MAX_PAYLOAD
    ensures var drained := Drain(later);
            Drain(Serialize(f).value + later) == Drained([f] + drained.frames, drained.rest)
  {
    var buffer, n := Serialize(f).value + later, 2 + |f.payload|;
    assert buffer[2..n] == f.payload && buffer[n..] == later;
  }

  lemma SerializedFirst(frames: seq<Frame>) returns (all: bytes, first: Frame, later: bytes)
    requires Fits(frames) && frames != []
    ensures all == Flatten(SerializeAll(frames)) && later == Flatten(SerializeAll(frames[1..]))
    ensures first == frames[0] && |first.payload| <= MAX_PAYLOAD && all == Serialize(first).value + later
  {
    all, first, later := Flatten(SerializeAll(frames)), frames[0], Flatten(SerializeAll(frames[1..]));
    assert SerializeAll(frames)[1..] == SerializeAll(frames[1..]);
  }

  /** Draining a serialised list gives back exactly that list. */
  lemma {:induction false} DrainSerialized(frames: seq<Frame>)
    requires Fits(frames)
    ensures Drain(Flatten(SerializeAll(frames))) == Drained(frames, [])
  {
    if frames != [] {
      var all, first, later := SerializedFirst(frames);
      DrainSerialized(frames[1..]);
      DrainFirst(first, later);
      assert frames == [first] + frames[1..];
    }
  }

  // ---------------------------------------------------------------- the receive path

  predicate Settled(r: Receiver) { Step(r.decoder) == None && TryPop(r.buffer) == None }

  function NewBytes(before: Dec, after: Dec): bytes
    requires |before.hist| <= |after.hist|
  {
    after.hist[|before.hist|..]
  }

  lemma ReceiveDrains(r: Receiver, chunk: bytes)
    requires Settled(r)
    ensures var d := Feed(r.decoder, chunk);
            && r.decoder.hist <= d.hist
            && var drained := Drain(r.buffer + NewBytes(r.decoder, d));
               Receive(r, chunk) == Received(Receiver(d, drained.rest), drained.frames)
    ensures Settled(Receive(r, chunk).receiver)
  {
    var settled := RunSettles(r.decoder.(pending := r.decoder.pending + chunk));
    var decoded := NewBytes(r.decoder, Feed(r.decoder, chunk));
    DrainSettles(r.buffer + decoded);
    assert decoded == [] ==> r.buffer + decoded == r.buffer;
  }

  /** However the input is chunked, the frames handed on are those of the bytes decoded so far. */
  lemma {:induction false} ReceiveAllDrains(r: Receiver, chunks: seq<bytes>)
    requires Settled(r)
    ensures var d := FeedAll(r.decoder, chunks);
            && r.decoder.hist <= d.hist
            && var drained := Drain(r.buffer + NewBytes(r.decoder, d));
               ReceiveAll(r, chunks) == Received(Receiver(d, drained.rest), drained.frames)
    decreases chunks
  {
    if chunks == [] {
      assert r.buffer + NewBytes(r.decoder, r.decoder) == r.buffer;
    } else {
      ReceiveDrains(r, chunks[0]);
      var first := Receive(r, chunks[0]).receiver;
      ReceiveAllDrains(first, chunks[1..]);
      var d1, d := first.decoder, FeedAll(first.decoder, chunks[1..]);
      JoinNewBytes(r.decoder, d1, d);
      DrainAppend(r.buffer + NewBytes(r.decoder, d1), NewBytes(d1, d));
      Regroup(r.buffer, NewBytes(r.decoder, d1), NewBytes(d1, d));
    }
  }

  lemma JoinNewBytes(a: Dec, b: Dec, c: Dec)
    requires a.hist <= b.hist <= c.hist
    ensures a.hist <= c.hist && NewBytes(a, b) + NewBytes(b, c) == NewBytes(a, c)
  {
    JoinSlices(c.hist, |a.hist|, |b.hist|, |c.hist|);
    assert b.hist[|a.hist|..] == c.hist[|a.hist|..|b.hist|];
  }

  /** Frames sent through the encoder one call each, then cut anywhere, arrive as exactly that list, in
      order, and leave nothing buffered. */
  lemma FramesArrive(frames: seq<Frame>, chunks: seq<bytes>)
    requires Fits(frames) && AllDecodable([], SerializeAll(frames))
    requires Flatten(chunks) == EncodeAll([], SerializeAll(frames))
    ensures ReceiveAll(CONNECTED, chunks) ==
            Received(Receiver(Dec(Flatten(SerializeAll(frames)), [], []), []), frames)
  {
    var calls := SerializeAll(frames);
    StreamInAnyChunking(calls, chunks);
    ReceiveAllDrains(CONNECTED, chunks);
    assert CONNECTED.buffer + NewBytes(FRESH, FeedAll(FRESH, chunks)) == Flatten(calls);
    DrainSerialized(frames);
  }

  /** At every moment before that, the frames handed on are a prefix of the frames sent. */
  lemma FramesArriveInOrder(frames: seq<Frame>, chunks: seq<bytes>, n: nat)
    requires Fits(frames) && AllDecodable([], SerializeAll(frames)) && n <= |chunks|
    requires Flatten(chunks) == EncodeAll([], SerializeAll(frames))
    ensures ReceiveAll(CONNECTED, chunks[..n]).frames <= frames
  {
    FramesArrive(frames, chunks);
    ReceiveAllPrefix(CONNECTED, chunks, n);
  }

  lemma {:induction false} ReceiveAllPrefix(r: Receiver, chunks: seq<bytes>, n: nat)
    requires n <= |chunks|
    ensures ReceiveAll(r, chunks[..n]).frames <= ReceiveAll(r, chunks).frames
    decreases n
  {
    if n > 0 {
      assert chunks[..n][0] == chunks[0] && chunks[..n][1..] == chunks[1..][..n - 1];
      ReceiveAllPrefix(Receive(r, chunks[0]).receiver, chunks[1..], n - 1);
    }
  }

  /** Short frames always arrive: a payload whose length modulo 8 is 6, 7, 0 or 1 leaves too few bytes to match in. */
  lemma {:induction false} ShortFramesDecodable(h: bytes, frames: seq<Frame>)
    requires Fits(frames) && forall f <- frames :: (|f.payload| + 2) % 8 < MIN_MATCH
    ensures AllDecodable(h, SerializeAll(frames))
    decreases frames
  {
    if frames != [] {
      ShortLeftoverDecodes(h, SerializeAll(frames)[0]);
      assert SerializeAll(frames)[1..] == SerializeAll(frames[1..]);
      ShortFramesDecodable(h + SerializeAll(frames)[0], frames[1..]);
    }
  }

  // ---------------------------------------------------------------- the connection object

  class ClientSession {
    const decoder: LzssDecoder
    const encoder: LzssEncoder
    var logicalBuffer: bytes

    ghost predicate Valid()
      reads this, decoder, decoder.window, encoder, encoder.window
    {
      && decoder.Valid() && encoder.Valid()
      && decoder.window != encoder.window
    }

    ghost function State(): Receiver
      reads this, decoder
      requires decoder.bit <= 8
    {
      Receiver(decoder.State(), logicalBuffer)
    }

    constructor ()
      ensures Valid() && State() == CONNECTED && encoder.history == []
      ensures fresh(decoder) && fresh(decoder.window) && fresh(encoder) && fresh(encoder.window)
    {
      decoder := new LzssDecoder();
      encoder := new LzssEncoder();
      logicalBuffer := [];
    }

    /** One turn of the receive loop: the frames completed by the received bytes. */
    method ReceiveChunk(packet: bytes) returns (frames: seq<Frame>)
      requires Valid()
      modifies this`logicalBuffer, decoder, decoder.window
      ensures Valid() && Received(State(), frames) == Receive(old(State()), packet)
      ensures encoder.history == old(encoder.history)
    {
      frames := [];
      var decoded := decoder.Feed(packet);
      assert decoder.State().hist[|old(decoder.history)|..] == decoded;
      if decoded != [] {
        logicalBuffer := logicalBuffer + decoded;
        frames := DrainLogicalPackets();
      }
    }

    method DrainLogicalPackets() returns (frames: seq<Frame>)
      modifies this`logicalBuffer
      ensures Drain(old(logicalBuffer)) == Drained(frames, logicalBuffer)
    {
      frames := [];
      while true
        invariant Drain(old(logicalBuffer)) ==
                  Drained(frames + Drain(logicalBuffer).frames, Drain(logicalBuffer).rest)
        decreases |logicalBuffer|
      {
        ghost var before := logicalBuffer;
        var frame := TryPopLogicalPacket();
        if frame == None {
          return;
        }
        Regroup(frames, [frame.value], Drain(logicalBuffer).frames);
        frames := frames + [frame.value];
      }
    }

    method TryPopLogicalPacket() returns (frame: Option<Frame>)
      modifies this`logicalBuffer
      ensures match TryPop(old(logicalBuffer))
              case None => frame == None && logicalBuffer == old(logicalBuffer)
              case Some(p) => frame == Some(p.frame) && logicalBuffer == p.rest
    {
      if |logicalBuffer| < 2 {
        return None;
      }
      var opcode, payloadLength := logicalBuffer[0], logicalBuffer[1];
      var frameLength := 2 + (payloadLength as int);
      if |logicalBuffer| < frameLength {
        return None;
      }
      frame := Some(Frame(opcode, logicalBuffer[2..frameLength]));
      logicalBuffer := logicalBuffer[frameLength..];
    }

    /** Serialises and encodes one frame; an oversized frame throws before the encoder sees it. */
    method SendLogicalFrame(f: Frame) returns (encoded: Option<bytes>)
      requires Valid()
      modifies encoder, encoder.window
      ensures Valid() && State() == old(State())
      ensures match Serialize(f)
              case None => encoded == None && encoder.history == old(encoder.history)
              case Some(b) => encoded == Some(Lzss.Encode(old(encoder.history), b)) &&
                              encoder.history == old(encoder.history) + b
    {
      match Serialize(f)
      case None => encoded := None;
      case Some(b) =>
        var output := encoder.Encode(b);
        encoded := Some(output);
    }
  }
}
