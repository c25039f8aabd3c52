/**
 Frame-level sending and receiving over a byte channel. A receive call is given the chunks that the
 channel returns, one for each pass of the loop before the deadline; any of them may be empty.
 */
module FrameTransceiver {
  import opened Bytes
  import opened FrameCodec

  const MAX_BUFFER := 1024

  /** Why bytes left the receive buffer. */
  datatype Segment =
    | Consumed(bytes: seq<byte>, frame: Frame)
    | Trimmed(bytes: seq<byte>)

  datatype Step = Step(frame: Option<Frame>, buffer: seq<byte>, segments: seq<Segment>)

  datatype Outcome = Outcome(frame: Option<Frame>, buffer: seq<byte>, used: nat, segments: seq<Segment>)

  // ----- specification -----

  /** The position of the first start byte at `i` or later, or the length when there is none. */
  function NextStart(s: seq<byte>, i: nat): (d: nat)
    requires i <= |s|
    ensures i <= d <= |s|
    ensures forall q :: i <= q < d ==> s[q] != FRAME_START
    ensures d < |s| ==> s[d] == FRAME_START
    decreases |s| - i
  {
    if i == |s| || s[i] == FRAME_START then i else NextStart(s, i + 1)
  }

  /** How many bytes a trim removes. */
  function TrimLength(s: seq<byte>): (d: nat)
    ensures d <= |s|
  {
    if |s| <= 1 then 0 else NextStart(s, 1)
  }

  /** What one chunk does to a buffer; `segments` holds what it makes leave the buffer. */
  function Absorb(buffer: seq<byte>, chunk: seq<byte>): Step {
    var b := buffer + chunk;
    if chunk == [] then Step(None, buffer, [])
    else match Decode(b)
      case Some(d) =>
        ConsumedWithinInput(b);
        Step(Some(d.frame), b[d.consumed..], [Consumed(b[..d.consumed], d.frame)])
      case None =>
        if |b| > MAX_BUFFER then Step(None, b[TrimLength(b)..], [Trimmed(b[..TrimLength(b)])])
        else Step(None, b, [])
  }

  /** One receive call: the frame, the buffer left, the number of chunks used, and what left the buffer. */
  function Receive(buffer: seq<byte>, chunks: seq<seq<byte>>): (o: Outcome)
    ensures o.used <= |chunks|
    decreases |chunks|
  {
    if chunks == [] then Outcome(None, buffer, 0, [])
    else
      var step := Absorb(buffer, chunks[0]);
      if step.frame.Some? then Outcome(step.frame, step.buffer, 1, step.segments)
      else
        var o := Receive(step.buffer, chunks[1..]);
        Outcome(o.frame, o.buffer, o.used + 1, step.segments + o.segments)
  }

  function SegmentBytes(segments: seq<Segment>): seq<byte> {
    if segments == [] then [] else segments[0].bytes + SegmentBytes(segments[1..])
  }

  /** A consumed segment is FE bytes and the wire form of the frame that was returned for it. */
  predicate Genuine(segment: Segment) {
    segment.Consumed? ==>
      var c := Core(segment.frame);
      |segment.frame.data| <= 255 && |c| <= |segment.bytes| &&
      segment.bytes == Repeat(PREAMBLE, |segment.bytes| - |c|) + c
  }

  predicate AllGenuine(segments: seq<Segment>) {
    segments == [] || (Genuine(segments[0]) && AllGenuine(segments[1..]))
  }

  lemma {:induction false} SegmentsConcat(s: seq<Segment>, t: seq<Segment>)
    ensures SegmentBytes(s + t) == SegmentBytes(s) + SegmentBytes(t)
    ensures AllGenuine(s + t) <==> AllGenuine(s) && AllGenuine(t)
  {
    if s == [] {
      assert s + t == t;
    } else {
      assert (s + t)[1..] == s[1..] + t;
      SegmentsConcat(s[1..], t);
    }
  }

  /** Every byte received is, in order, in a segment that left the buffer or still in the buffer. */
  predicate Accounted(received: seq<byte>, segments: seq<Segment>, buffer: seq<byte>) {
    received == SegmentBytes(segments) + buffer && AllGenuine(segments)
  }

  /** No byte is lost, made up or reordered by one pass of the loop. */
  lemma AbsorbConserves(buffer: seq<byte>, chunk: seq<byte>)
    ensures var step := Absorb(buffer, chunk);
            Accounted(buffer + chunk, step.segments, step.buffer)
  {
    var b, step := buffer + chunk, Absorb(buffer, chunk);
    if step.segments == [] {
      assert b == [] + step.buffer;
    } else {
      OneSegment(step.segments[0]);
      if step.frame.Some? {
        ConsumedIsGenuine(b);
      }
    }
  }

  lemma ConsumedIsGenuine(b: seq<byte>)
    requires Decode(b).Some?
    ensures var d := Decode(b).value; d.consumed <= |b| && Genuine(Consumed(b[..d.consumed], d.frame))
  {
    DecodedIsCarried(b);
  }

  lemma OneSegment(segment: Segment)
    ensures SegmentBytes([segment]) == segment.bytes
    ensures AllGenuine([segment]) <==> Genuine(segment)
  {
    assert [segment][1..] == [];
  }

  lemma AccountedInTurn(
      received: seq<byte>, segments: seq<Segment>, buffer: seq<byte>,
      more: seq<byte>, later: seq<Segment>, left: seq<byte>)
    requires Accounted(received, segments, buffer) && Accounted(buffer + more, later, left)
    ensures Accounted(received + more, segments + later, left)
  {
    SegmentsConcat(segments, later);
    Assoc(SegmentBytes(segments), buffer, more);
    Assoc(SegmentBytes(segments), SegmentBytes(later), left);
  }

  lemma AbsorbKeepsAccount(received: seq<byte>, segments: seq<Segment>, buffer: seq<byte>, chunk: seq<byte>)
    requires Accounted(received, segments, buffer)
    ensures var step := Absorb(buffer, chunk);
            Accounted(received + chunk, segments + step.segments, step.buffer)
  {
    var step := Absorb(buffer, chunk);
    AbsorbConserves(buffer, chunk);
    AccountedInTurn(received, segments, buffer, chunk, step.segments, step.buffer);
  }

  // ----- the transceiver -----

  class Transceiver {
    var recvBuffer: seq<byte>

    // Everything received since the last send, and everything that left the buffer since then.
    ghost var received: seq<byte>
    ghost var segments: seq<Segment>

    ghost predicate Valid()
      reads this
    {
      Accounted(received, segments, recvBuffer)
    }

    constructor ()
      ensures Valid() && recvBuffer == [] && received == [] && segments == []
    {
      recvBuffer, received, segments := [], [], [];
    }

    /** Clears what an earlier exchange left behind and hands the encoded frame to the channel. */
    method SendFrame(frame: Frame, channelAccepts: bool) returns (wire: seq<byte>, sent: bool)
      modifies this
      ensures Valid() && recvBuffer == [] && received == [] && segments == []
      ensures wire == Encode(frame) && sent == channelAccepts
    {
      recvBuffer, received, segments := [], [], [];
      wire := EncodeFrame(frame);
      sent := channelAccepts;
    }

    method TrimToNextFrameStart()
      modifies this`recvBuffer
      ensures recvBuffer == old(recvBuffer)[TrimLength(old(recvBuffer))..]
    {
      if |recvBuffer| <= 1 {
        return;
      }
      var it := 1;
      while it < |recvBuffer| && recvBuffer[it] != FRAME_START
        invariant 1 <= it <= |recvBuffer|
        invariant NextStart(recvBuffer, 1) == NextStart(recvBuffer, it)
      {
        it := it + 1;
      }
      if it != |recvBuffer| {
        recvBuffer := recvBuffer[it..];
      } else {
        recvBuffer := [];
      }
    }

    /** The body of the receive loop. */
    method AbsorbChunk(chunk: seq<byte>) returns (frame: Option<Frame>)
      requires Valid()
      modifies this
      ensures Valid() && received == old(received) + chunk
      ensures var step := Absorb(old(recvBuffer), chunk);
              frame == step.frame && recvBuffer == step.buffer && segments == old(segments) + step.segments
    {
      AbsorbKeepsAccount(received, segments, recvBuffer, chunk);
      ghost var step := Absorb(recvBuffer, chunk);
      received, segments := received + chunk, segments + step.segments;
      frame := BufferChunk(chunk);
    }

    method BufferChunk(chunk: seq<byte>) returns (frame: Option<Frame>)
      modifies this`recvBuffer
      ensures var step := Absorb(old(recvBuffer), chunk);
              frame == step.frame && recvBuffer == step.buffer
    {
      if chunk == [] {
        return None;
      }
      recvBuffer := recvBuffer + chunk;
      var decoded := DecodeBytes(recvBuffer);
      if decoded.Some? {
        var consumed := decoded.value.consumed;
        recvBuffer := if consumed <= |recvBuffer| then recvBuffer[consumed..] else [];
        return Some(decoded.value.frame);
      }
      if |recvBuffer| > MAX_BUFFER {
        TrimToNextFrameStart();
      }
      return None;
    }

    method ReceiveFrame(isOpen: bool, chunks: seq<seq<byte>>) returns (frame: Option<Frame>, used: nat)
      requires Valid()
      modifies this
      ensures Valid() && used <= |chunks|
      ensures received == old(received) + Flatten(chunks[..used])
      ensures var o := if isOpen then Receive(old(recvBuffer), chunks) else Outcome(None, old(recvBuffer), 0, []);
              frame == o.frame && recvBuffer == o.buffer && used == o.used &&
              segments == old(segments) + o.segments
    {
      used := 0;
      if !isOpen {
        return None, 0;
      }
      ghost var left: seq<Segment> := [];
      while used < |chunks|
        invariant used <= |chunks|
        invariant Valid()
        invariant segments == old(segments) + left
        invariant received == old(received) + Flatten(chunks[..used])
        invariant Receive(old(recvBuffer), chunks) == After(used, left, Receive(recvBuffer, chunks[used..]))
      {
        FlattenSnoc(chunks, used);
        ReceiveStep(recvBuffer, chunks, used, left);
        Assoc(old(received), Flatten(chunks[..used]), chunks[used]);
        Assoc(old(segments), left, Absorb(recvBuffer, chunks[used]).segments);
        left := left + Absorb(recvBuffer, chunks[used]).segments;
        frame := AbsorbChunk(chunks[used]);
        used := used + 1;
        if frame.Some? {
          return;
        }
      }
      return None, used;
    }
  }

  /** An outcome seen from an earlier point, `used` chunks and some segments before. */
  function After(used: nat, left: seq<Segment>, o: Outcome): Outcome {
    Outcome(o.frame, o.buffer, used + o.used, left + o.segments)
  }

  lemma ReceiveStep(buffer: seq<byte>, chunks: seq<seq<byte>>, used: nat, left: seq<Segment>)
    requires used < |chunks|
    ensures var step := Absorb(buffer, chunks[used]);
            After(used, left, Receive(buffer, chunks[used..])) ==
            if step.frame.Some? then Outcome(step.frame, step.buffer, used + 1, left + step.segments)
            else After(used + 1, left + step.segments, Receive(step.buffer, chunks[used + 1..]))
  {
    assert chunks[used..][1..] == chunks[used + 1..];
    var step := Absorb(buffer, chunks[used]);
    if step.frame.None? {
      Assoc(left, step.segments, Receive(step.buffer, chunks[used + 1..]).segments);
    }
  }
}
