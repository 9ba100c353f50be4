/** The firmware's serial receive task in generic mode: decode, check the envelope, and keep frames
    in a ring until the transmit queue takes them. */
module SerialRx {
  import opened Words
  import Kiss
  import SerialIntegrity
  import Crc32

  const SERIAL_RX_BACKLOG_DEPTH: nat := 32
  const TNC_PAYLOAD_MAX_LEN: nat := 1280

  // ---- what a stream of bytes should yield ----

  /** The frame one decoder report adds to the backlog. Control frames and other commands add none. */
  function FrameOf(o: Kiss.Outcome): seq<Bytes> {
    match o
    case FRAME(command, data) =>
      if command != Kiss.KISS_DATA_FRAME then []
      else (match SerialIntegrity.Unwrap(data) case Some(payload) => [payload] case None => [])
    case _ => []
  }

  function FramesOf(told: seq<Kiss.Outcome>): seq<Bytes> {
    if |told| == 0 then [] else FramesOf(told[..|told| - 1]) + FrameOf(told[|told| - 1])
  }

  function DecoderAfter(bytes: Bytes): Kiss.Decoder {
    Kiss.Feed(Kiss.KISS_FRAME_PAYLOAD_MAX_LEN, Kiss.START, bytes).0
  }

  /** The frames a stream of bytes yields, in order. */
  function Accepted(bytes: Bytes): seq<Bytes> {
    FramesOf(Kiss.Feed(Kiss.KISS_FRAME_PAYLOAD_MAX_LEN, Kiss.START, bytes).1)
  }

  lemma FramesAppend(told: seq<Kiss.Outcome>, o: Kiss.Outcome)
    ensures FramesOf(told + Kiss.Told(o)) == FramesOf(told) + FrameOf(o)
  {
    if o.NOTHING? {
      assert told + [] == told;
    } else {
      assert (told + [o])[..|told|] == told;
    }
  }

  lemma AcceptedAppend(bytes: Bytes, b: byte)
    ensures var (d, o) := Kiss.Step(Kiss.KISS_FRAME_PAYLOAD_MAX_LEN, DecoderAfter(bytes), b);
            DecoderAfter(bytes + [b]) == d && Accepted(bytes + [b]) == Accepted(bytes) + FrameOf(o)
  {
    hide Kiss.Feed, Kiss.Step, Kiss.Told, FramesOf, FrameOf;
    Kiss.FeedAppend(Kiss.KISS_FRAME_PAYLOAD_MAX_LEN, Kiss.START, bytes, b);
    var (d, told) := Kiss.Feed(Kiss.KISS_FRAME_PAYLOAD_MAX_LEN, Kiss.START, bytes);
    FramesAppend(told, Kiss.Step(Kiss.KISS_FRAME_PAYLOAD_MAX_LEN, d, b).1);
  }

  // ---- what the host sends ----

  /** A datagram with the line noise before it. */
  datatype Message = Message(noise: Bytes, payload: Bytes)

  /** The host wraps each datagram and encodes it as a data frame. */
  function OnTheWire(messages: seq<Message>): Bytes {
    if |messages| == 0 then []
    else
      var m := messages[|messages| - 1];
      OnTheWire(messages[..|messages| - 1])
      + (m.noise + Kiss.EncodeFrame(Kiss.KISS_DATA_FRAME, SerialIntegrity.Wrap(m.payload)))
  }

  /** What one message should yield: whatever frames its noise holds, and its own datagram when that is
      of legal length. */
  function Yield(m: Message): seq<Bytes> {
    Accepted(m.noise) + (if |m.payload| <= TNC_PAYLOAD_MAX_LEN then [m.payload] else [])
  }

  function Expected(messages: seq<Message>): seq<Bytes> {
    if |messages| == 0 then [] else Expected(messages[..|messages| - 1]) + Yield(messages[|messages| - 1])
  }

  /** Noise that does not leave the decoder inside a frame. */
  predicate Harmless(noise: Bytes) {
    DecoderAfter(noise).state == Kiss.IDLE
  }

  predicate AllHarmless(messages: seq<Message>) {
    forall k :: 0 <= k < |messages| ==> Harmless(messages[k].noise)
  }

  /** Noise that holds no FEND is harmless and yields nothing. */
  lemma FendFreeIsHarmless(noise: Bytes)
    requires Kiss.FEND !in noise
    ensures Harmless(noise) && Accepted(noise) == []
  {
    Kiss.NoiseIgnored(Kiss.KISS_FRAME_PAYLOAD_MAX_LEN, noise);
    hide Kiss.Feed;
  }

  lemma WrappedReport(payload: Bytes)
    ensures FrameOf(Kiss.Received(Kiss.KISS_FRAME_PAYLOAD_MAX_LEN, Kiss.KISS_DATA_FRAME, SerialIntegrity.Wrap(payload)))
            == if |payload| <= TNC_PAYLOAD_MAX_LEN then [payload] else []
  {
    hide Crc32.Checksum, SerialIntegrity.Unwrap, SerialIntegrity.BuildHeader;
    SerialIntegrity.UnwrapExactly(SerialIntegrity.Wrap(payload), payload);
  }

  /** The pipeline is lossless and ordered: for any list of datagrams, with any noise between them that
      leaves the decoder idle, the firmware accepts exactly those of up to 1280 bytes, in order and
      unchanged, and nothing else but the frames the noise itself holds. */
  lemma PipelineLossless(messages: seq<Message>, bytes: Bytes)
    requires bytes == OnTheWire(messages) && AllHarmless(messages)
    ensures Accepted(bytes) == Expected(messages)
  {
    hide Accepted, DecoderAfter, AllHarmless, Expected, OnTheWire;
    Pipeline(messages);
  }

  lemma {:induction false} Pipeline(messages: seq<Message>)
    requires AllHarmless(messages)
    ensures DecoderAfter(OnTheWire(messages)) == Kiss.START
    ensures Accepted(OnTheWire(messages)) == Expected(messages)
  {
    hide Accepted, DecoderAfter, Harmless, Yield, Kiss.EncodeFrame, SerialIntegrity.Wrap;
    if |messages| == 0 {
      NothingAccepted();
    } else {
      var n := |messages| - 1;
      Pipeline(messages[..n]);
      MessageAccepted(OnTheWire(messages[..n]), messages[n]);
    }
  }

  lemma NothingAccepted()
    ensures DecoderAfter([]) == Kiss.START && Accepted([]) == []
  {
    Kiss.FeedNone(Kiss.KISS_FRAME_PAYLOAD_MAX_LEN, Kiss.START, []);
  }

  lemma {:induction false} FramesConcat(told: seq<Kiss.Outcome>, more: seq<Kiss.Outcome>)
    ensures FramesOf(told + more) == FramesOf(told) + FramesOf(more)
  {
    hide FrameOf;
    if |more| == 0 {
      assert told + more == told;
    } else {
      var start, last := more[..|more| - 1], more[|more| - 1];
      FramesConcat(told, start);
      assert told + more == told + start + [last];
      FramesLast(told + start, last);
      FramesLast(start, last);
      assert start + [last] == more;
      hide FramesOf;
    }
  }

  lemma FramesLast(told: seq<Kiss.Outcome>, last: Kiss.Outcome)
    ensures FramesOf(told + [last]) == FramesOf(told) + FrameOf(last)
  {
    assert (told + [last])[..|told|] == told;
  }

  /** From a decoder at its start, the frames of two streams in a row are those of each. */
  lemma AcceptedConcat(a: Bytes, b: Bytes)
    requires DecoderAfter(a) == Kiss.START
    ensures DecoderAfter(a + b) == DecoderAfter(b) && Accepted(a + b) == Accepted(a) + Accepted(b)
  {
    var max := Kiss.KISS_FRAME_PAYLOAD_MAX_LEN;
    hide Kiss.Feed, FramesOf;
    Kiss.FeedConcat(max, Kiss.START, a, b);
    FramesConcat(Kiss.Feed(max, Kiss.START, a).1, Kiss.Feed(max, Kiss.START, b).1);
  }

  lemma FrameAccepted(payload: Bytes)
    ensures var bytes := Kiss.EncodeFrame(Kiss.KISS_DATA_FRAME, SerialIntegrity.Wrap(payload));
            && DecoderAfter(bytes) == Kiss.START
            && Accepted(bytes) == (if |payload| <= TNC_PAYLOAD_MAX_LEN then [payload] else [])
  {
    hide Kiss.Feed, Kiss.EncodeFrame, SerialIntegrity.Wrap, FrameOf, FramesOf, Kiss.Received;
    var max := Kiss.KISS_FRAME_PAYLOAD_MAX_LEN;
    var wrapped := SerialIntegrity.Wrap(payload);
    Kiss.IdleDecodes(max, Kiss.START, Kiss.KISS_DATA_FRAME, wrapped);
    var o := Kiss.Received(max, Kiss.KISS_DATA_FRAME, wrapped);
    assert Kiss.Told(o) == [o] by { ReceivedIsTold(max, Kiss.KISS_DATA_FRAME, wrapped); }
    var none: seq<Kiss.Outcome> := [];
    FramesAppend(none, o);
    assert none + [o] == [o];
    assert FramesOf(none) == [] by { FramesNone(none); }
    WrappedReport(payload);
  }

  /** A frame with any other command yields nothing, whatever its payload, and the decoder is ready again. */
  lemma OtherCommandsYieldNothing(command: byte, payload: Bytes)
    requires command != Kiss.KISS_DATA_FRAME && command != Kiss.FEND && command != Kiss.FESC
    ensures var bytes := Kiss.EncodeFrame(command, payload);
            DecoderAfter(bytes) == Kiss.START && Accepted(bytes) == []
  {
    var max := Kiss.KISS_FRAME_PAYLOAD_MAX_LEN;
    hide Kiss.Feed, Kiss.EncodeFrame, FramesOf;
    Kiss.IdleDecodes(max, Kiss.START, command, payload);
    var o := Kiss.Received(max, command, payload);
    var none: seq<Kiss.Outcome> := [];
    FramesLast(none, o);
    assert none + [o] == [o];
    FramesNone(none);
  }

  lemma FramesNone(told: seq<Kiss.Outcome>)
    requires |told| == 0
    ensures FramesOf(told) == []
  {}

  lemma MessageAccepted(before: Bytes, m: Message)
    requires DecoderAfter(before) == Kiss.START && Harmless(m.noise)
    ensures var bytes := before + (m.noise + Kiss.EncodeFrame(Kiss.KISS_DATA_FRAME, SerialIntegrity.Wrap(m.payload)));
            DecoderAfter(bytes) == Kiss.START && Accepted(bytes) == Accepted(before) + Yield(m)
  {
    hide Kiss.Feed, Kiss.EncodeFrame, SerialIntegrity.Wrap, Accepted;
    var encoded := Kiss.EncodeFrame(Kiss.KISS_DATA_FRAME, SerialIntegrity.Wrap(m.payload));
    Kiss.IdleIsStart(Kiss.KISS_FRAME_PAYLOAD_MAX_LEN, m.noise);
    FrameAccepted(m.payload);
    hide DecoderAfter;
    AcceptedConcat(m.noise, encoded);
    AcceptedConcat(before, m.noise + encoded);
  }

  lemma ReceivedIsTold(max: nat, command: byte, payload: Bytes)
    ensures Kiss.Told(Kiss.Received(max, command, payload)) == [Kiss.Received(max, command, payload)]
  {}

  /** With legal datagrams and noise that yields nothing, the datagrams themselves. */
  lemma {:induction false} ExpectedWhenAllLegal(messages: seq<Message>)
    requires forall k :: 0 <= k < |messages| ==>
               Accepted(messages[k].noise) == [] && |messages[k].payload| <= TNC_PAYLOAD_MAX_LEN
    ensures |Expected(messages)| == |messages|
    ensures forall k :: 0 <= k < |messages| ==> Expected(messages)[k] == messages[k].payload
  {
    hide Accepted;
    if |messages| > 0 {
      ExpectedWhenAllLegal(messages[..|messages| - 1]);
    }
  }

  // ---- the task ----

  /** The FreeRTOS transmit queue: how many places it reports and whether it takes a frame may
      differ on every call. */
  datatype TxQueue = TxQueue(spaces: nat -> nat, takes: nat -> bool)

  /** Where the k-th frame of a ring that starts at tail lies. */
  function Place(tail: nat, k: nat): nat {
    if tail + k < SERIAL_RX_BACKLOG_DEPTH then tail + k else tail + k - SERIAL_RX_BACKLOG_DEPTH
  }

  class SerialRxTask {
    const decoder: Kiss.KissDecoder
    const backlog: array<Bytes>
    var head: nat
    var tail: nat
    var count: nat
    var calls: nat
    ghost var consumed: Bytes
    ghost var forwarded: seq<Bytes>

    ghost predicate Shape()
      reads this, decoder, backlog
    {
      && decoder.Valid() && decoder.max == Kiss.KISS_FRAME_PAYLOAD_MAX_LEN
      && backlog.Length == SERIAL_RX_BACKLOG_DEPTH
      && tail < SERIAL_RX_BACKLOG_DEPTH && count <= SERIAL_RX_BACKLOG_DEPTH
      && head < SERIAL_RX_BACKLOG_DEPTH
      && (head == Place(tail, count) || (head == tail && count == SERIAL_RX_BACKLOG_DEPTH))
    }

    /** The frames in the ring, oldest first. */
    ghost function Ring(): (r: seq<Bytes>)
      requires Shape()
      reads this, decoder, backlog
      ensures |r| == count
      ensures forall k :: 0 <= k < count ==> r[k] == backlog[Place(tail, k)]
    {
      seq(count, k requires 0 <= k < count reads this, backlog
                 requires backlog.Length == SERIAL_RX_BACKLOG_DEPTH && tail < SERIAL_RX_BACKLOG_DEPTH
                          && count <= SERIAL_RX_BACKLOG_DEPTH => backlog[Place(tail, k)])
    }

    /** Every frame the bytes read so far yield has been forwarded or is in the ring, in order. */
    ghost predicate Valid()
      reads this, decoder, decoder.buf, backlog
    {
      Shape() && decoder.State() == DecoderAfter(consumed) && forwarded + Ring() == Accepted(consumed)
    }

    constructor ()
      ensures Valid() && consumed == [] && forwarded == []
      ensures fresh(decoder) && fresh(decoder.buf) && fresh(backlog)
    {
      decoder := new Kiss.KissDecoder(Kiss.KISS_FRAME_PAYLOAD_MAX_LEN);
      backlog := new Bytes[SERIAL_RX_BACKLOG_DEPTH](_ => []);
      head, tail, count, calls := 0, 0, 0, 0;
      consumed, forwarded := [], [];
      new;
      Kiss.FeedNone(Kiss.KISS_FRAME_PAYLOAD_MAX_LEN, Kiss.START, []);
    }

    /** Hands frames to the transmit queue while it has places and takes them. */
    method Drain(queue: TxQueue)
      requires Valid()
      modifies this
      ensures Valid() && consumed == old(consumed) && old(forwarded) <= forwarded
      ensures count <= old(count)
    {
      hide Accepted, DecoderAfter;
      while count > 0 && queue.spaces(calls) > 0
        invariant Valid() && consumed == old(consumed) && old(forwarded) <= forwarded && count <= old(count)
        decreases count
      {
        var taken := queue.takes(calls + 1);
        calls := calls + 2;
        if !taken {
          break;
        }
        DropOldest();
      }
    }

    /** The queue has taken the oldest frame. */
    method DropOldest()
      requires Valid() && count > 0
      modifies this`forwarded, this`tail, this`count
      ensures Valid() && forwarded == old(forwarded) + [old(Ring()[0])] && count == old(count) - 1
    {
      hide Accepted, DecoderAfter;
      ghost var ring := Ring();
      forwarded := forwarded + [backlog[tail]];
      tail := (tail + 1) % SERIAL_RX_BACKLOG_DEPTH;
      count := count - 1;
      forall k | 0 <= k < count ensures Ring()[k] == ring[k + 1] {}
      assert Ring() == ring[1..];
      MoveOver(old(forwarded), ring);
    }

    lemma MoveOver(before: seq<Bytes>, ring: seq<Bytes>)
      requires |ring| > 0
      ensures before + [ring[0]] + ring[1..] == before + ring
    {}

    /** Puts a frame at the head of the ring; the caller has seen that there is room. */
    method Append(frame: Bytes)
      requires Shape() && count < SERIAL_RX_BACKLOG_DEPTH
      modifies this`head, this`count, backlog
      ensures Shape() && Ring() == old(Ring()) + [frame]
    {
      ghost var ring := Ring();
      backlog[head] := frame;
      head := (head + 1) % SERIAL_RX_BACKLOG_DEPTH;
      count := count + 1;
      assert Ring() == ring + [frame];
    }

    /** One byte: decode it and, when it completes a data frame with an intact envelope, keep the
        payload. */
    method ReadByte(b: byte)
      requires Valid() && count < SERIAL_RX_BACKLOG_DEPTH
      modifies this, decoder, decoder.buf, backlog
      ensures Valid() && consumed == old(consumed) + [b] && forwarded == old(forwarded)
    {
      hide Accepted, DecoderAfter, Kiss.Step, SerialIntegrity.Unwrap;
      AcceptedAppend(consumed, b);
      ghost var ring := Ring();
      var o := decoder.DecodeFrameEx(b);
      consumed := consumed + [b];
      assert Ring() == ring;
      match o
      case FRAME(command, data) =>
        if command == Kiss.KISS_DATA_FRAME {
          var payload := SerialIntegrity.Unwrap(data);
          if payload.Some? {
            Append(payload.value);
          }
        }
      case _ =>
    }

    /** Reads what the port says is available, one result of Serial.read() after the other, a
        negative one meaning none; never a byte more than the ring has room for. */
    method ReadAvailable(available: seq<int>) returns (n: nat)
      requires Valid()
      modifies this, decoder, decoder.buf, backlog
      ensures Valid() && n <= |available| && forwarded == old(forwarded)
      ensures forall k :: 0 <= k < n ==> available[k] >= 0
      ensures consumed == old(consumed) + seq(n, k requires 0 <= k < n => available[k] % 0x100)
      ensures n < |available| ==> count == SERIAL_RX_BACKLOG_DEPTH || available[n] < 0
    {
      hide Accepted, DecoderAfter;
      n := 0;
      while n < |available|
        invariant n <= |available| && Valid() && forwarded == old(forwarded)
        invariant forall k :: 0 <= k < n ==> available[k] >= 0
        invariant consumed == old(consumed) + seq(n, k requires 0 <= k < n => available[k] % 0x100)
      {
        if count == SERIAL_RX_BACKLOG_DEPTH {
          break;
        }
        if available[n] < 0 {
          break;
        }
        ReadByte(available[n] % 0x100);
        n := n + 1;
      }
    }

    /** One pass of the endless loop. */
    method Iterate(queue: TxQueue, available: seq<int>) returns (n: nat)
      requires Valid()
      modifies this, decoder, decoder.buf, backlog
      ensures Valid() && n <= |available| && old(forwarded) <= forwarded
      ensures consumed == old(consumed) + seq(n, k requires 0 <= k < n => available[k] % 0x100)
    {
      hide Accepted, DecoderAfter;
      Drain(queue);
      if count == SERIAL_RX_BACKLOG_DEPTH {
        n := 0;
        return;
      }
      n := ReadAvailable(available);
    }
  }

  /** However the passes of the loop divided up the stream and whatever the queue answered, once the receive
      task has read all the host sent, the frames forwarded and those in the ring are the datagrams of
      legal length, in order, between the frames the noise holds. */
  lemma TaskKeepsOrder(task: SerialRxTask, messages: seq<Message>, frames: seq<Bytes>)
    requires task.Valid() && task.consumed == OnTheWire(messages) && frames == task.forwarded + task.Ring()
    requires AllHarmless(messages)
    ensures frames == Expected(messages)
  {
    hide Accepted, OnTheWire, Expected, DecoderAfter, AllHarmless;
    PipelineLossless(messages, task.consumed);
  }

  /** So with legal datagrams, and noise that neither holds a frame nor leaves the decoder inside one, those
      frames are the datagrams. */
  lemma TaskLossless(task: SerialRxTask, messages: seq<Message>, frames: seq<Bytes>)
    requires task.Valid() && task.consumed == OnTheWire(messages) && frames == task.forwarded + task.Ring()
    requires forall k :: 0 <= k < |messages| ==>
               && Harmless(messages[k].noise) && Accepted(messages[k].noise) == []
               && |messages[k].payload| <= TNC_PAYLOAD_MAX_LEN
    ensures |frames| == |messages| && forall k :: 0 <= k < |messages| ==> frames[k] == messages[k].payload
  {
    hide Accepted, OnTheWire, Expected, DecoderAfter, Harmless;
    TaskKeepsOrder(task, messages, frames);
    ExpectedWhenAllLegal(messages);
  }

  /** The other direction: after any noise that leaves its decoder idle, the host decodes and unwraps what
      the firmware wraps and encodes to the same payload, as long as it does not exceed the host's own
      limit. */
  lemma HostTakesWhatFirmwareSends(mtu: nat, noise: Bytes, payload: Bytes)
    requires |payload| <= mtu && |payload| < 0x1_0000
    requires Kiss.Feed(mtu + SerialIntegrity.SERIAL_INTEGRITY_HDR_LEN, Kiss.START, noise).0.state == Kiss.IDLE
    ensures var max := mtu + SerialIntegrity.SERIAL_INTEGRITY_HDR_LEN;
            var sent := noise + Kiss.EncodeFrame(Kiss.KISS_DATA_FRAME, SerialIntegrity.Wrap(payload));
            var before := Kiss.Feed(max, Kiss.START, noise).1;
            var (d, told) := Kiss.Feed(max, Kiss.START, sent);
            && d == Kiss.START && |told| == |before| + 1 && told[..|before|] == before
            && Kiss.HostFrame(told[|before|]).Some?
            && SerialIntegrity.Unwrap(Kiss.HostFrame(told[|before|]).value) == Some(payload)
  {
    hide Kiss.Feed, Kiss.EncodeFrame, SerialIntegrity.Unwrap, Crc32.Checksum, SerialIntegrity.BuildHeader;
    var wrapped := SerialIntegrity.Wrap(payload);
    Kiss.DecodesWhatWasEncoded(mtu + SerialIntegrity.SERIAL_INTEGRITY_HDR_LEN, noise, Kiss.KISS_DATA_FRAME, wrapped);
    SerialIntegrity.UnwrapExactly(wrapped, payload);
  }
}
