/** KISS framing of the host byte stream: the firmware codec and the host codec, one specification. */
module Kiss {
  import opened Words

  const FEND: byte := 0xC0
  const FESC: byte := 0xDB
  const TFEND: byte := 0xDC
  const TFESC: byte := 0xDD

  const KISS_DATA_FRAME: byte := 0x00
  const KISS_CONTROL_FRAME: byte := 0x0F
  const KISS_FRAME_PAYLOAD_MAX_LEN: nat := 1288

  datatype DecoderState = IDLE | IN_FRAME | ESCAPE

  /** The bytes collected so far are _buf[.._len]: the command, then the payload. */
  datatype Decoder = Decoder(state: DecoderState, buf: Bytes, overflow: bool)

  datatype Outcome = NOTHING | FRAME(command: byte, payload: Bytes) | OVERSIZE_DROP | INVALID_ESCAPE_DROP

  const START: Decoder := Decoder(IDLE, [], false)

  // ---- encoding ----

  function EscapedByte(b: byte): Bytes {
    if b == FEND then [FESC, TFEND] else if b == FESC then [FESC, TFESC] else [b]
  }

  function Escaped(payload: Bytes): Bytes {
    if |payload| == 0 then [] else Escaped(payload[..|payload| - 1]) + EscapedByte(payload[|payload| - 1])
  }

  function EncodeFrame(command: byte, payload: Bytes): Bytes {
    [FEND, command] + Escaped(payload) + [FEND]
  }

  // ---- decoding ----

  /** A byte of content: kept while the command and `max` payload bytes have room for it. */
  function Push(max: nat, d: Decoder, b: byte): Decoder {
    if |d.buf| < max + 1 then d.(state := IN_FRAME, buf := d.buf + [b]) else d.(state := IN_FRAME, overflow := true)
  }

  /** A FEND inside a frame ends it, whatever became of it. */
  function Close(d: Decoder): Outcome {
    if |d.buf| == 0 then NOTHING
    else if d.overflow then OVERSIZE_DROP
    else FRAME(d.buf[0], d.buf[1..])
  }

  function Step(max: nat, d: Decoder, b: byte): (Decoder, Outcome) {
    match d.state
    case IDLE => if b == FEND then (Decoder(IN_FRAME, [], false), NOTHING) else (d, NOTHING)
    case IN_FRAME =>
      if b == FEND then (START, Close(d))
      else if b == FESC then (d.(state := ESCAPE), NOTHING)
      else (Push(max, d, b), NOTHING)
    case ESCAPE =>
      if b == TFEND then (Push(max, d, FEND), NOTHING)
      else if b == TFESC then (Push(max, d, FESC), NOTHING)
      else (START, INVALID_ESCAPE_DROP)
  }

  function Told(o: Outcome): seq<Outcome> {
    if o.NOTHING? then [] else [o]
  }

  /** The decoder after a stream of bytes, and what it reported on the way. */
  function Feed(max: nat, d: Decoder, bytes: Bytes): (Decoder, seq<Outcome>) {
    if |bytes| == 0 then (d, [])
    else
      var (e, told) := Feed(max, d, bytes[..|bytes| - 1]);
      var (f, o) := Step(max, e, bytes[|bytes| - 1]);
      (f, told + Told(o))
  }

  lemma FeedAppend(max: nat, d: Decoder, bytes: Bytes, b: byte)
    ensures var (e, told) := Feed(max, d, bytes);
            var (f, o) := Step(max, e, b);
            Feed(max, d, bytes + [b]) == (f, told + Told(o))
  {
    assert (bytes + [b])[..|bytes|] == bytes;
  }

  lemma {:induction false} FeedConcat(max: nat, d: Decoder, a: Bytes, b: Bytes)
    ensures var (e, told) := Feed(max, d, a);
            var (f, more) := Feed(max, e, b);
            Feed(max, d, a + b) == (f, told + more)
  {
    hide Step, Feed;
    if |b| == 0 {
      FeedNone(max, Feed(max, d, a).0, b);
      assert a + b == a;
      var told := Feed(max, d, a).1;
      assert told + [] == told;
    } else {
      var start, last := b[..|b| - 1], b[|b| - 1];
      FeedConcat(max, d, a, start);
      FeedAppend(max, d, a + start, last);
      var (e, told) := Feed(max, d, a);
      FeedAppend(max, e, start, last);
      assert a + b == a + start + [last];
      assert start + [last] == b;
      var (g, more) := Feed(max, e, start);
      var last' := Told(Step(max, g, last).1);
      assert (told + more) + last' == told + (more + last');
    }
  }

  lemma FeedNone(max: nat, d: Decoder, none: Bytes)
    requires |none| == 0
    ensures Feed(max, d, none) == (d, [])
  {}

  lemma FeedOne(max: nat, d: Decoder, b: byte)
    ensures Feed(max, d, [b]) == (Step(max, d, b).0, Told(Step(max, d, b).1))
  {
    assert [b][..0] == [];
    assert Feed(max, d, []) == (d, []);
    var told := Told(Step(max, d, b).1);
    assert [] + told == told;
  }

  lemma FeedTwo(max: nat, d: Decoder, a: byte, b: byte)
    requires Step(max, d, a).1 == NOTHING
    ensures var (e, o) := Step(max, Step(max, d, a).0, b); Feed(max, d, [a, b]) == (e, Told(o))
  {
    FeedOne(max, d, a);
    FeedOne(max, Step(max, d, a).0, b);
    FeedConcat(max, d, [a], [b]);
    assert [a, b] == [a] + [b];
    hide Feed, Step;
    var told := Told(Step(max, Step(max, d, a).0, b).1);
    assert [] + told == told;
  }

  // ---- round trips ----

  lemma {:induction false} NoiseIgnored(max: nat, noise: Bytes)
    requires FEND !in noise
    ensures Feed(max, START, noise) == (START, [])
  {
    if |noise| > 0 {
      NoiseIgnored(max, noise[..|noise| - 1]);
      var none: seq<Outcome> := [];
      assert none + [] == [];
    }
  }

  /** A frame being received whose payload so far is p. */
  function Receiving(max: nat, command: byte, p: Bytes): Decoder {
    Decoder(IN_FRAME, [command] + (if |p| <= max then p else p[..max]), |p| > max)
  }

  lemma PushGrows(max: nat, command: byte, p: Bytes, b: byte)
    ensures Push(max, Receiving(max, command, p), b) == Receiving(max, command, p + [b])
  {
    if |p| < max {
      assert [command] + p + [b] == [command] + (p + [b]);
    } else {
      assert (p + [b])[..max] == p[..max];
    }
  }

  lemma FeedEscapedByte(max: nat, command: byte, p: Bytes, b: byte)
    ensures Feed(max, Receiving(max, command, p), EscapedByte(b)) == (Receiving(max, command, p + [b]), [])
  {
    var d := Receiving(max, command, p);
    PushGrows(max, command, p, b);
    assert Push(max, d.(state := ESCAPE), b) == Push(max, d, b);
    if b == FEND || b == FESC {
      FeedTwo(max, d, FESC, if b == FEND then TFEND else TFESC);
    } else {
      FeedOne(max, d, b);
    }
    hide Feed, Receiving, Push;
  }

  lemma {:induction false} FeedEscaped(max: nat, command: byte, p: Bytes)
    ensures Feed(max, Receiving(max, command, []), Escaped(p)) == (Receiving(max, command, p), [])
  {
    hide Feed, Receiving, EscapedByte;
    if |p| == 0 {
      FeedNone(max, Receiving(max, command, []), Escaped(p));
      assert p == [];
    } else {
      var start, last := p[..|p| - 1], p[|p| - 1];
      FeedEscaped(max, command, start);
      FeedConcat(max, Receiving(max, command, []), Escaped(start), EscapedByte(last));
      FeedEscapedByte(max, command, start, last);
      assert start + [last] == p;
      var none: seq<Outcome> := [];
      assert none + none == none;
    }
  }

  /** What a decoder makes of one frame: the frame itself exactly when it fits, and otherwise one
      oversize drop. Either way it is ready for the next frame. */
  function Received(max: nat, command: byte, payload: Bytes): Outcome {
    if |payload| <= max then FRAME(command, payload) else OVERSIZE_DROP
  }

  lemma OpensFrame(max: nat, d: Decoder, command: byte)
    requires d.state == IDLE && command != FEND && command != FESC
    ensures Feed(max, d, [FEND, command]) == (Receiving(max, command, []), [])
  {
    FeedTwo(max, d, FEND, command);
    assert [] + [command] == [command] == [command] + [];
    hide Feed;
  }

  lemma ClosesFrame(max: nat, command: byte, payload: Bytes)
    ensures Feed(max, Receiving(max, command, payload), [FEND]) == (START, [Received(max, command, payload)])
  {
    var d := Receiving(max, command, payload);
    assert d.buf[1..] == if |payload| <= max then payload else payload[..max];
    FeedOne(max, d, FEND);
    hide Feed;
  }

  lemma {:induction false} EscapedHasNoFend(payload: Bytes)
    ensures FEND !in Escaped(payload)
  {
    if |payload| > 0 {
      EscapedHasNoFend(payload[..|payload| - 1]);
    }
  }

  /** The bytes of a frame whose payload holds both special bytes. */
  lemma KnownFrame(payload: Bytes)
    requires payload == [0xC0, 0x41, 0xDB]
    ensures EncodeFrame(KISS_DATA_FRAME, payload) == [0xC0, 0x00, 0xDB, 0xDC, 0x41, 0xDB, 0xDD, 0xC0]
  {
    assert payload[..2][..1] == payload[..1];
    assert Escaped(payload[..1]) == Escaped(payload[..1][..0]) + EscapedByte(0xC0);
    assert Escaped(payload[..2]) == Escaped(payload[..1]) + EscapedByte(0x41);
  }

  lemma IdleDecodes(max: nat, d: Decoder, command: byte, payload: Bytes)
    requires d.state == IDLE && command != FEND && command != FESC
    ensures Feed(max, d, EncodeFrame(command, payload)) == (START, [Received(max, command, payload)])
  {
    OpensFrame(max, d, command);
    FeedEscaped(max, command, payload);
    ClosesFrame(max, command, payload);
    hide Feed, Receiving, Received;
    FeedConcat(max, d, [FEND, command], Escaped(payload));
    FeedConcat(max, d, [FEND, command] + Escaped(payload), [FEND]);
    assert [] + [] + [Received(max, command, payload)] == [Received(max, command, payload)];
  }

  /** A FEND brings an idle decoder into a frame and every other decoder to its idle state. */
  lemma FendFlips(max: nat, d: Decoder)
    ensures Feed(max, d, [FEND]) ==
            if d.state == IDLE then (Decoder(IN_FRAME, [], false), []) else (START, Told(Step(max, d, FEND).1))
  {
    FeedOne(max, d, FEND);
    hide Feed;
  }

  /** A decoder that is not idle takes the opening FEND of a frame for the end of another. Nothing of
      the frame is reported, and its closing FEND opens the next. */
  lemma BusyLosesFrame(max: nat, d: Decoder, command: byte, payload: Bytes)
    requires d.state != IDLE && command != FEND
    ensures Feed(max, d, EncodeFrame(command, payload)) ==
            (Decoder(IN_FRAME, [], false), Told(Step(max, d, FEND).1))
  {
    FendFlips(max, d);
    FendFlips(max, START);
    hide Feed, Escaped, Step, Told;
    var inner := [command] + Escaped(payload);
    EscapedHasNoFend(payload);
    NoiseIgnored(max, inner);
    FeedConcat(max, d, [FEND], inner);
    FeedConcat(max, d, [FEND] + inner, [FEND]);
    var told := Told(Step(max, d, FEND).1);
    assert told + [] + [] == told;
    assert EncodeFrame(command, payload) == [FEND] + inner + [FEND];
  }

  /** An encoded frame decodes to itself exactly when the decoder is idle before it. */
  lemma DecodesExactlyWhenIdle(max: nat, d: Decoder, command: byte, payload: Bytes)
    requires command != FEND && command != FESC
    ensures Feed(max, d, EncodeFrame(command, payload)) == (START, [Received(max, command, payload)])
            <==> d.state == IDLE
  {
    if d.state == IDLE {
      IdleDecodes(max, d, command, payload);
    } else {
      BusyLosesFrame(max, d, command, payload);
      hide Feed;
    }
  }

  /** Round trip: after any noise an encoded frame decodes to itself, for every payload, whatever bytes
      it holds, exactly when the noise leaves the decoder idle. */
  lemma DecodesWhatWasEncoded(max: nat, noise: Bytes, command: byte, payload: Bytes)
    requires command != FEND && command != FESC
    ensures Feed(max, START, noise + EncodeFrame(command, payload))
            == (START, Feed(max, START, noise).1 + [Received(max, command, payload)])
            <==> Feed(max, START, noise).0.state == IDLE
  {
    var (d, told) := Feed(max, START, noise);
    FeedConcat(max, START, noise, EncodeFrame(command, payload));
    if d.state == IDLE {
      IdleDecodes(max, d, command, payload);
    } else {
      BusyLosesFrame(max, d, command, payload);
      hide Feed;
    }
  }

  /** Noise without FESC bytes leaves the decoder idle exactly when it holds an even number of FEND
      bytes: none, or two in a row before a frame, are harmless, and a stray one is not. */
  lemma {:induction false} HarmlessExactlyWhenEven(max: nat, noise: Bytes)
    requires FESC !in noise
    ensures Feed(max, START, noise).0.state != ESCAPE
    ensures Feed(max, START, noise).0.state == IDLE <==> multiset(noise)[FEND] % 2 == 0
  {
    if |noise| > 0 {
      var start, last := noise[..|noise| - 1], noise[|noise| - 1];
      assert start + [last] == noise;
      HarmlessExactlyWhenEven(max, start);
    }
  }

  /** From its start, a decoder that is idle again is as it was at its start. */
  lemma {:induction false} IdleIsStart(max: nat, bytes: Bytes)
    requires Feed(max, START, bytes).0.state == IDLE
    ensures Feed(max, START, bytes).0 == START
  {
    if |bytes| > 0 {
      var start := bytes[..|bytes| - 1];
      if Feed(max, START, start).0.state == IDLE {
        IdleIsStart(max, start);
      }
    }
  }

  /** A closing FEND never opens a frame: one stray FEND before a frame loses the frame and leaves
      the decoder inside another, as if after a FEND. */
  lemma StrayFendLosesFrame(max: nat, command: byte, payload: Bytes)
    requires command != FEND
    ensures Feed(max, START, [FEND] + EncodeFrame(command, payload)) == (Decoder(IN_FRAME, [], false), [])
  {
    FendFlips(max, START);
    FeedConcat(max, START, [FEND], EncodeFrame(command, payload));
    BusyLosesFrame(max, Decoder(IN_FRAME, [], false), command, payload);
    hide Feed;
  }

  // ---- the firmware codec, in place ----

  class KissDecoder {
    var state: DecoderState
    const buf: array<byte>
    var len: nat
    var overflow: bool
    const max: nat

    ghost predicate Valid()
      reads this
    {
      buf.Length == max + 1 && len <= buf.Length
    }

    ghost function State(): Decoder
      requires Valid()
      reads this, buf
    {
      Decoder(state, buf[..len], overflow)
    }

    constructor (max: nat)
      ensures Valid() && State() == START && this.max == max && fresh(buf)
    {
      this.max := max;
      buf := new byte[max + 1](_ => 0);
      state, len, overflow := IDLE, 0, false;
    }

    method Reset()
      requires Valid()
      modifies this
      ensures Valid() && State() == START
    {
      state, len, overflow := IDLE, 0, false;
    }

    method Keep(b: byte)
      requires Valid()
      modifies this, buf
      ensures Valid() && State() == Push(max, old(State()), b)
    {
      state := IN_FRAME;
      if len < max + 1 {
        buf[len] := b;
        len := len + 1;
      } else {
        overflow := true;
      }
    }

    method DecodeFrameEx(b: byte) returns (o: Outcome)
      requires Valid()
      modifies this, buf
      ensures Valid() && (State(), o) == Step(max, old(State()), b)
    {
      o := NOTHING;
      match state
      case IDLE =>
        if b == FEND {
          len, overflow, state := 0, false, IN_FRAME;
        }
      case IN_FRAME =>
        if b == FEND {
          if len == 0 {
            overflow, state := false, IDLE;
          } else if overflow {
            len, overflow, state := 0, false, IDLE;
            o := OVERSIZE_DROP;
          } else {
            o := FRAME(buf[0], buf[1..len]);
            len, overflow, state := 0, false, IDLE;
          }
        } else if b == FESC {
          state := ESCAPE;
        } else {
          Keep(b);
        }
      case ESCAPE =>
        if b == TFEND || b == TFESC {
          Keep(if b == TFEND then FEND else FESC);
        } else {
          len, overflow, state := 0, false, IDLE;
          o := INVALID_ESCAPE_DROP;
        }
    }

    /** The host decoder reports data frames on port 0 only. */
    method FeedHost(b: byte) returns (out: Option<Bytes>)
      requires Valid()
      modifies this, buf
      ensures Valid() && State() == Step(max, old(State()), b).0
      ensures out == HostFrame(Step(max, old(State()), b).1)
    {
      var o := DecodeFrameEx(b);
      out := HostFrame(o);
    }
  }

  function HostFrame(o: Outcome): Option<Bytes> {
    match o
    case FRAME(command, payload) => if command == KISS_DATA_FRAME then Some(payload) else None
    case _ => None
  }

  lemma {:induction false} EscapedLength(payload: Bytes, n: nat)
    requires n <= |payload|
    ensures |Escaped(payload[..n])| <= |Escaped(payload)|
    decreases |payload|
  {
    if n < |payload| {
      EscapedLength(payload[..|payload| - 1], n);
      assert payload[..|payload| - 1][..n] == payload[..n];
    } else {
      assert payload[..n] == payload;
    }
  }

  lemma EscapedNone()
    ensures Escaped([]) == []
  {}

  lemma EscapedNext(payload: Bytes, k: nat)
    requires k < |payload|
    ensures Escaped(payload[..k + 1]) == Escaped(payload[..k]) + EscapedByte(payload[k])
  {
    assert payload[..k + 1][..k] == payload[..k];
  }

  /** Puts an escaped byte at position n. */
  method WriteEscaped(b: byte, outBuf: array<byte>, n: nat) returns (m: nat)
    requires n + |EscapedByte(b)| <= outBuf.Length
    modifies outBuf
    ensures m == n + |EscapedByte(b)|
    ensures outBuf[..m] == old(outBuf[..n]) + EscapedByte(b)
  {
    if b == FEND || b == FESC {
      outBuf[n], outBuf[n + 1] := FESC, if b == FEND then TFEND else TFESC;
      m := n + 2;
    } else {
      outBuf[n] := b;
      m := n + 1;
    }
  }

  /** Writes nothing and returns 0 when the buffer is too small, and else the whole frame. */
  method EncodeFrameInto(command: byte, payload: Bytes, outBuf: array<byte>) returns (n: nat)
    modifies outBuf
    ensures n == if |EncodeFrame(command, payload)| > outBuf.Length then 0 else |EncodeFrame(command, payload)|
    ensures n > 0 ==> outBuf[..n] == EncodeFrame(command, payload)
    ensures n == 0 ==> outBuf[..] == old(outBuf[..])
  {
    hide Escaped;
    EscapedLength(payload, 0);
    assert payload[..0] == [] && Escaped([]) == [] by { EscapedNone(); }
    var required := 3;
    for k := 0 to |payload|
      invariant required == 3 + |Escaped(payload[..k])| && unchanged(outBuf)
    {
      EscapedNext(payload, k);
      required := required + if payload[k] == FEND || payload[k] == FESC then 2 else 1;
    }
    assert payload[..|payload|] == payload;
    if required > outBuf.Length {
      return 0;
    }
    outBuf[0], outBuf[1] := FEND, command;
    n := 2;
    for k := 0 to |payload|
      invariant n == 2 + |Escaped(payload[..k])| < outBuf.Length
      invariant outBuf[..n] == [FEND, command] + Escaped(payload[..k])
    {
      EscapedLength(payload, k + 1);
      EscapedNext(payload, k);
      n := WriteEscaped(payload[k], outBuf, n);
    }
    outBuf[n] := FEND;
    n := n + 1;
  }

  /** `kiss_encode` of the host: the vector is cleared and filled byte by byte. */
  method KissEncode(payload: Bytes) returns (out: Bytes)
    ensures out == EncodeFrame(KISS_DATA_FRAME, payload)
  {
    out := [FEND, KISS_DATA_FRAME];
    for k := 0 to |payload|
      invariant out == [FEND, KISS_DATA_FRAME] + Escaped(payload[..k])
    {
      assert payload[..k + 1][..k] == payload[..k];
      if payload[k] == FEND {
        out := out + [FESC, TFEND];
      } else if payload[k] == FESC {
        out := out + [FESC, TFESC];
      } else {
        out := out + [payload[k]];
      }
    }
    assert payload[..|payload|] == payload;
    out := out + [FEND];
  }
}
