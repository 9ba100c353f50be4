/** The ARQ engine as a value and each of its operations as a function on it. The class in
    ArqEngine.dfy updates the same state in place and is proved to compute these functions. */
module ArqState {
  import opened Words
  import opened FramingV3
  import opened FragmentV3
  import opened DatagramPool
  import opened DuplicateWindow

  const ARQ_MAX_OUTSTANDING: nat := 4
  const ARQ_MAX_RX_DATAGRAMS: nat := 4
  const ARQ_PENDING_ACK_CAPACITY: nat := 16

  datatype Config = Config(retryTimeout: uint32, ackTurnaround: uint32, creditStallTimeout: uint32,
                           maxAttempts: byte, initialRemoteCredits: byte, initialDatagramId: uint16)

  /** Everything the engine did that its environment or a proof can look back on, in order. */
  datatype Event =
    | Submitted(id: uint16, data: Bytes)
    | Opened(id: uint16, probe: bool)
    | Sent(frame: Frame, accepted: bool)
    | AckSeen(ack: AckFrame)
    | Completed(id: uint16)
    | Exhausted(id: uint16)
    | EgressAsked(capacity: byte)
    | Delivered(id: uint16, data: Bytes, accepted: bool)

  type Log = seq<Event>

  /** The three callbacks, each possibly null. An answer may depend on everything that happened
      before the call, so an environment can answer anything each time it is asked. */
  datatype Callbacks = Callbacks(send: Option<(Log, Packet) -> bool>, deliver: Option<(Log, Bytes) -> bool>,
                                 egress: Option<Log -> byte>)

  datatype TxState = EMPTY | QUEUED | OPEN

  /** The buffer pointer of the source is the pool buffer behind the handle. */
  datatype TxSlot = TxSlot(state: TxState, handle: nat, len: uint16, datagramId: uint16, fragmentCount: byte,
                           acked: Bitmap, round: Bitmap, nextFragment: byte, attempts: byte, retryDeadline: uint32)

  datatype RxSlot = RxSlot(active: bool, handle: nat, reassembly: Reassembly, waiting: bool)

  datatype PendingAck = PendingAck(ack: AckFrame, readyDeadline: uint32)

  const EMPTY_TX: TxSlot := TxSlot(EMPTY, NO_HANDLE, 0, 0, 0, {}, {}, 0, 0, 0)
  const EMPTY_RX: RxSlot := RxSlot(false, NO_HANDLE, ResetReassembly(0), false)

  const NO_TX_SLOTS: seq<TxSlot> := [EMPTY_TX, EMPTY_TX, EMPTY_TX, EMPTY_TX]
  const NO_RX_SLOTS: seq<RxSlot> := [EMPTY_RX, EMPTY_RX, EMPTY_RX, EMPTY_RX]

  type TxSlots = s: seq<TxSlot> | |s| == 4 witness NO_TX_SLOTS
  type RxSlots = s: seq<RxSlot> | |s| == 4 witness NO_RX_SLOTS

  datatype Engine = Engine(config: Config, callbacks: Callbacks, txPool: Pool, rxPool: Pool, window: Window,
                           tx: TxSlots, rx: RxSlots, acks: seq<PendingAck>, credits: byte, nextId: uint16,
                           probeArmed: bool, probeDeadline: uint32, log: Log, submitted: seq<Bytes>)

  datatype ArqResult = ARQ_OK | BAD_ARGUMENT_R | BAD_LENGTH_R | NO_TX_SLOT | ALLOCATION_FAILED

  /** The credits a peer grants, but never more than can be outstanding. */
  function ClampCredits(value: byte): (credits: byte)
    ensures credits <= value && credits <= 4 && (credits == value || credits == 4)
  {
    if value > ARQ_MAX_OUTSTANDING then ARQ_MAX_OUTSTANDING else value
  }

  function Reset(config: Config, callbacks: Callbacks): Engine {
    Engine(config, callbacks, FreshPool(), FreshPool(), EmptyWindow(), NO_TX_SLOTS, NO_RX_SLOTS, [],
           ClampCredits(config.initialRemoteCredits), config.initialDatagramId, false, 0, [], [])
  }

  // ---- looking things up in the slot arrays ----

  /** The lowest slot in the given state at or above i, or 4. */
  function FirstTx(tx: TxSlots, state: TxState, i: nat): (k: nat)
    requires i <= 4
    ensures i <= k <= 4
    ensures k < 4 ==> tx[k].state == state
    ensures forall j :: i <= j < k ==> tx[j].state != state
    decreases 4 - i
  {
    if i == 4 || tx[i].state == state then i else FirstTx(tx, state, i + 1)
  }

  /** How many of the first n slots are in the given state. */
  function CountTx(tx: TxSlots, state: TxState, n: nat): (c: nat)
    requires n <= 4
    ensures c <= n
    ensures c == 0 <==> forall j :: 0 <= j < n ==> tx[j].state != state
  {
    if n == 0 then 0 else CountTx(tx, state, n - 1) + (if tx[n - 1].state == state then 1 else 0)
  }

  function ActiveCount(s: Engine): nat {
    CountTx(s.tx, OPEN, 4)
  }

  function QueuedCount(s: Engine): nat {
    CountTx(s.tx, QUEUED, 4)
  }

  function OpenSlotFor(tx: TxSlots, id: uint16, i: nat): (k: nat)
    requires i <= 4
    ensures i <= k <= 4
    ensures k < 4 ==> tx[k].state == OPEN && tx[k].datagramId == id
    ensures forall j :: i <= j < k ==> !(tx[j].state == OPEN && tx[j].datagramId == id)
    decreases 4 - i
  {
    if i == 4 || (tx[i].state == OPEN && tx[i].datagramId == id) then i else OpenSlotFor(tx, id, i + 1)
  }

  function RxSlotFor(rx: RxSlots, id: uint16, i: nat): (k: nat)
    requires i <= 4
    ensures i <= k <= 4
    ensures k < 4 ==> rx[k].active && rx[k].reassembly.datagramId == id
    ensures forall j :: i <= j < k ==> !(rx[j].active && rx[j].reassembly.datagramId == id)
    decreases 4 - i
  {
    if i == 4 || (rx[i].active && rx[i].reassembly.datagramId == id) then i else RxSlotFor(rx, id, i + 1)
  }

  function FirstInactive(rx: RxSlots, i: nat): (k: nat)
    requires i <= 4
    ensures i <= k <= 4
    ensures k < 4 ==> !rx[k].active
    ensures forall j :: i <= j < k ==> rx[j].active
    decreases 4 - i
  {
    if i == 4 || !rx[i].active then i else FirstInactive(rx, i + 1)
  }

  function CountInactive(rx: RxSlots, n: nat): (c: nat)
    requires n <= 4
    ensures c <= n
  {
    if n == 0 then 0 else CountInactive(rx, n - 1) + (if !rx[n - 1].active then 1 else 0)
  }

  function PendingAckFor(acks: seq<PendingAck>, id: uint16, i: nat): (k: nat)
    requires i <= |acks|
    ensures i <= k <= |acks|
    ensures k < |acks| ==> acks[k].ack.datagramId == id
    ensures forall j :: i <= j < k ==> acks[j].ack.datagramId != id
    decreases |acks| - i
  {
    if i == |acks| || acks[i].ack.datagramId == id then i else PendingAckFor(acks, id, i + 1)
  }

  function Note(s: Engine, e: Event): Engine {
    s.(log := s.log + [e])
  }

  function SetTx(s: Engine, i: nat, slot: TxSlot): Engine
    requires i < 4
  {
    s.(tx := s.tx[i := slot])
  }

  function SetRx(s: Engine, i: nat, slot: RxSlot): Engine
    requires i < 4
  {
    s.(rx := s.rx[i := slot])
  }

  // ---- submitting ----

  function Submit(s: Engine, data: Option<Bytes>): (Engine, ArqResult) {
    match data
    case None => (s, BAD_ARGUMENT_R)
    case Some(d) =>
      if |d| == 0 || |d| > V3_MAX_DATAGRAM then (s, BAD_LENGTH_R)
      else
        var i := FirstTx(s.tx, EMPTY, 0);
        if i == 4 then (s, NO_TX_SLOT)
        else
          var (pool, handle) := Acquire(s.txPool);
          if handle.None? then (s, ALLOCATION_FAILED) else (Place(s, i, pool, handle.value, d), ARQ_OK)
  }

  function QueuedSlot(s: Engine, handle: nat, d: Bytes): TxSlot
    requires |d| <= V3_MAX_DATAGRAM
  {
    TxSlot(QUEUED, handle, |d|, s.nextId, ExpectedFragmentCount(|d|), {}, {}, 0, 0, 0)
  }

  function Filled(buffer: Bytes, d: Bytes): (b: Bytes)
    ensures |b| == |buffer|
  {
    if |d| <= |buffer| then Overwrite(buffer, 0, d) else buffer
  }

  /** The datagram goes into its buffer and slot i, and takes the next id. */
  function Place(s: Engine, i: nat, pool: Pool, handle: nat, d: Bytes): Engine
    requires i < 4 && |d| <= V3_MAX_DATAGRAM
  {
    s.(txPool := WriteBuffer(pool, handle, Filled(Buffer(pool, handle), d)), tx := s.tx[i := QueuedSlot(s, handle, d)],
       nextId := (s.nextId + 1) % 0x1_0000, log := s.log + [Submitted(s.nextId, d)], submitted := s.submitted + [d])
  }

  // ---- credits and acknowledgements ----

  function AskEgress(s: Engine, default: byte): (Engine, byte) {
    match s.callbacks.egress
    case None => (s, default)
    case Some(f) => (Note(s, EgressAsked(f(s.log))), f(s.log))
  }

  function CurrentCredits(s: Engine): (r: (Engine, byte)) {
    var (t, egress) := AskEgress(s, ARQ_MAX_RX_DATAGRAMS);
    var slots := CountInactive(t.rx, 4);
    var buffers := |t.rxPool.free|;
    var fewest := if buffers > slots then slots else buffers;
    (t, ClampCredits(if fewest > egress then egress else fewest))
  }

  function EnqueueAck(s: Engine, ack: AckFrame, ready: uint32): Engine {
    var k := PendingAckFor(s.acks, ack.datagramId, 0);
    if k < |s.acks| then s.(acks := s.acks[k := PendingAck(ack, ready)])
    else if |s.acks| >= ARQ_PENDING_ACK_CAPACITY then s
    else s.(acks := s.acks + [PendingAck(ack, ready)])
  }

  function AckDeadline(s: Engine, now: uint32): uint32 {
    Wrap32(now + s.config.ackTurnaround)
  }

  /** Handing a packet to the radio. */
  function Transmit(s: Engine, f: Frame): (Engine, bool)
    requires Buildable(f)
  {
    match s.callbacks.send
    case None => (s, false)
    case Some(send) => (Note(s, Sent(f, send(s.log, Encode(f)))), send(s.log, Encode(f)))
  }

  function SendPendingAck(s: Engine, now: uint32): (Engine, bool) {
    if |s.acks| == 0 || s.callbacks.send.None? then (s, false)
    else if !Reached(now, s.acks[0].readyDeadline) then (s, false)
    else
      var (t, accepted) := Transmit(s, Ack(s.acks[0].ack));
      if !accepted then (t, false) else (t.(acks := t.acks[1..]), true)
  }

  function FlushPendingAck(s: Engine, now: uint32): (Engine, bool) {
    SendPendingAck(s, now)
  }

  // ---- transmitting fragments ----

  function RoundFlags(slot: TxSlot, k: nat): byte {
    if slot.round - {k} == {} then V3_DATA_FLAG_ROUND_END else 0
  }

  /** The datagram a slot holds, or nothing when its handle has no buffer. */
  function SlotData(s: Engine, slot: TxSlot): Option<Bytes> {
    var buffer := Buffer(s.txPool, slot.handle);
    if slot.len <= |buffer| then Some(buffer[..slot.len]) else None
  }

  /** The packet for fragment k of slot i, when it can be described and built. */
  function FragmentFrame(s: Engine, i: nat, k: nat): (r: Option<Frame>)
    requires i < 4
    ensures r.Some? ==> Buildable(r.value) && r.value.DataFrame?
  {
    var slot := s.tx[i];
    match SlotData(s, slot)
    case None => None
    case Some(d) =>
      match DescribeDatagram(d, slot.datagramId, RoundFlags(slot, k), QueuedCount(s))
      case Failure(_) => None
      case Success(fragments) =>
        if k >= |fragments| then None
        else
          var f := DataFrame(fragments[k].header, fragments[k].payload);
          if Buildable(f) then Some(f) else None
  }

  function SendDataFragment(s: Engine, i: nat, k: nat): (Engine, bool)
    requires i < 4
  {
    match FragmentFrame(s, i, k)
    case None => (s, false)
    case Some(f) => Transmit(s, f)
  }

  /** The scan for the next fragment of the round at or after k. */
  function Scan(slot: TxSlot, k: byte): (n: byte)
    ensures k <= n && (k <= slot.fragmentCount ==> n <= slot.fragmentCount)
    ensures n < slot.fragmentCount ==> n in slot.round
    ensures forall j :: k <= j < n ==> j !in slot.round
    decreases slot.fragmentCount - k
  {
    if k >= slot.fragmentCount || k in slot.round then k else Scan(slot, k + 1)
  }

  /** The slot after fragment k of its round went out. */
  function AfterFragment(slot: TxSlot, k: byte, deadline: uint32): TxSlot
    requires k < 0xFF
  {
    slot.(round := slot.round - {k}, nextFragment := k + 1,
          retryDeadline := if slot.round - {k} == {} then deadline else slot.retryDeadline)
  }

  function RetryDeadline(s: Engine, now: uint32): uint32 {
    Wrap32(now + s.config.retryTimeout)
  }

  function FullBitmap(slot: TxSlot): Bitmap {
    FragmentExpectedBitmap(slot.fragmentCount)
  }

  /** Is slot i one the retransmit loop acts on? */
  predicate RetransmitDue(s: Engine, i: nat, now: uint32)
    requires i < 4
  {
    var slot := s.tx[i];
    slot.state == OPEN && slot.round == {} && !(FullBitmap(slot) <= slot.acked) && Reached(now, slot.retryDeadline)
  }

  function NewRound(slot: TxSlot): TxSlot
    requires slot.attempts < 0xFF
  {
    var begun := slot.(attempts := slot.attempts + 1, round := FullBitmap(slot) - slot.acked);
    begun.(nextFragment := Scan(begun, 0))
  }

  function SendNext(s: Engine, i: nat, now: uint32): (Engine, bool)
    requires i < 4
  {
    var k := s.tx[i].nextFragment;
    if k >= s.tx[i].fragmentCount then (s, false)
    else
      var (t, accepted) := SendDataFragment(s, i, k);
      if !accepted then (t, false) else (SetTx(t, i, AfterFragment(t.tx[i], k, RetryDeadline(t, now))), true)
  }

  function TrySendRetransmit(s: Engine, i: nat, now: uint32): (Engine, bool)
    requires i <= 4
    decreases 4 - i
  {
    if i == 4 then (s, false)
    else if !RetransmitDue(s, i, now) then TrySendRetransmit(s, i + 1, now)
    else if s.tx[i].attempts >= s.config.maxAttempts then (FailTxSlot(s, i), false)
    else
      var (t, sent) := SendNext(SetTx(s, i, NewRound(s.tx[i])), i, now);
      if sent then (t, true) else TrySendRetransmit(t, i + 1, now)
  }

  function TrySendOpenData(s: Engine, i: nat, now: uint32): (Engine, bool)
    requires i <= 4
    decreases 4 - i
  {
    if i == 4 then (s, false)
    else if s.tx[i].state != OPEN || s.tx[i].round == {} then TrySendOpenData(s, i + 1, now)
    else
      var slot := s.tx[i].(nextFragment := Scan(s.tx[i], s.tx[i].nextFragment));
      if slot.nextFragment >= slot.fragmentCount then
        TrySendOpenData(SetTx(s, i, slot.(round := {}, retryDeadline := RetryDeadline(s, now))), i + 1, now)
      else
        var (t, sent) := SendNext(SetTx(s, i, slot), i, now);
        if sent then (t, true) else TrySendOpenData(t, i + 1, now)
  }

  function OpenSlot(s: Engine, i: nat, now: uint32): Engine
    requires i < 4
  {
    var slot := s.tx[i];
    var started := slot.(state := OPEN, acked := {}, round := FullBitmap(slot), nextFragment := 0, attempts := 1,
                        retryDeadline := RetryDeadline(s, now));
    Note(SetTx(s, i, started), Opened(slot.datagramId, s.credits == 0))
      .(credits := if s.credits > 0 then s.credits - 1 else s.credits)
  }

  function TryOpenQueued(s: Engine, now: uint32): (Engine, bool) {
    if ActiveCount(s) != 0 then (s, false)
    else if s.credits == 0 && QueuedCount(s) == 0 then (s.(probeArmed := false), false)
    else if s.credits == 0 && !s.probeArmed then
      (s.(probeArmed := true, probeDeadline := Wrap32(now + s.config.creditStallTimeout)), false)
    else if s.credits == 0 && !Reached(now, s.probeDeadline) then (s, false)
    else OpenNext(s.(probeArmed := false), now)
  }

  function OpenNext(s: Engine, now: uint32): (Engine, bool) {
    var i := FirstTx(s.tx, QUEUED, 0);
    if i == 4 then (s, false) else TrySendOpenData(OpenSlot(s, i, now), 0, now)
  }

  function ClearTxSlot(s: Engine, i: nat): Engine
    requires i < 4
  {
    s.(txPool := if s.tx[i].handle < DATAGRAM_POOL_CAPACITY then Release(s.txPool, s.tx[i].handle).0 else s.txPool,
       tx := s.tx[i := EMPTY_TX])
  }

  function FailTxSlot(s: Engine, i: nat): Engine
    requires i < 4
  {
    ClearTxSlot(Note(s, Exhausted(s.tx[i].datagramId)), i)
  }

  function CompleteTxSlot(s: Engine, i: nat): Engine
    requires i < 4
  {
    ClearTxSlot(Note(s, Completed(s.tx[i].datagramId)), i)
  }

  // ---- receiving an acknowledgement ----

  /** What an acknowledgement does to the OPEN slot it names. */
  function AckSlot(s: Engine, i: nat, ack: AckFrame, now: uint32): Engine
    requires i < 4
  {
    if ack.failure == CREDIT_WITHDRAWAL then
      SetTx(s, i, s.tx[i].(acked := s.tx[i].acked * ack.fragmentBitmap, round := {}, nextFragment := 0, attempts := 1,
                           retryDeadline := Wrap32(now + s.config.creditStallTimeout)))
    else
      var t := SetTx(s, i, s.tx[i].(acked := s.tx[i].acked + ack.fragmentBitmap));
      if FullBitmap(t.tx[i]) <= t.tx[i].acked && ack.failure == NONE then CompleteTxSlot(t, i) else t
  }

  function NoteAck(s: Engine, ack: AckFrame): Engine {
    Note(s, AckSeen(ack)).(credits := ClampCredits(ack.receiverCredits))
  }

  function HandleAck(s: Engine, ack: AckFrame, now: uint32): Engine {
    var t := NoteAck(s, ack);
    var i := OpenSlotFor(t.tx, ack.datagramId, 0);
    if i == 4 then t else AckSlot(t, i, ack, now)
  }

  // ---- receiving data ----

  function QueueFailureAck(s: Engine, id: uint16, bitmap: Bitmap, failure: FailureStatus, now: uint32): Engine {
    var (t, credits) := CurrentCredits(s);
    EnqueueAck(t, AckFrame(id, bitmap, credits, failure), AckDeadline(t, now))
  }

  /** The bitmap of a credit withdrawal: a full one loses its lowest bit,
      `full & ~(full - 1)`, so that the sender keeps the datagram. */
  function WithdrawnBitmap(r: Reassembly): Bitmap {
    var full := FragmentExpectedBitmap(r.fragmentCount);
    if full <= r.receivedBitmap && full != {} then r.receivedBitmap - {0} else r.receivedBitmap
  }

  function QueueRxAck(s: Engine, i: nat, failure: FailureStatus, now: uint32): Engine
    requires i < 4
  {
    var r := s.rx[i].reassembly;
    if failure == CREDIT_WITHDRAWAL then
      EnqueueAck(s, AckFrame(r.datagramId, WithdrawnBitmap(r), 0, failure), AckDeadline(s, now))
    else
      var (t, credits) := CurrentCredits(s);
      EnqueueAck(t, AckFrame(r.datagramId, r.receivedBitmap, credits, failure), AckDeadline(t, now))
  }

  function ReleaseRxSlot(s: Engine, i: nat): Engine
    requires i < 4
  {
    s.(rxPool := if s.rx[i].handle < DATAGRAM_POOL_CAPACITY then Release(s.rxPool, s.rx[i].handle).0 else s.rxPool,
       rx := s.rx[i := EMPTY_RX])
  }

  /** The bytes handed to the egress callback. */
  function OutputOf(s: Engine, i: nat): Bytes
    requires i < 4
  {
    var buffer := Buffer(s.rxPool, s.rx[i].handle);
    if s.rx[i].reassembly.datagramLength <= |buffer| then buffer[..s.rx[i].reassembly.datagramLength] else []
  }

  /** Offering a datagram to the egress: the capacity is asked for first. */
  function Offer(s: Engine, i: nat): (Engine, bool)
    requires i < 4
  {
    var (t, egress) := AskEgress(s, 1);
    if egress == 0 then (t, false)
    else match t.callbacks.deliver
      case None => (t, false)
      case Some(deliver) =>
        var accepted := deliver(t.log, OutputOf(t, i));
        (Note(t, Delivered(t.rx[i].reassembly.datagramId, OutputOf(t, i), accepted)), accepted)
  }

  /** What follows an accepted delivery: the window entry, the final acknowledgement, the release. */
  function FinishDelivery(s: Engine, i: nat, now: uint32): Engine
    requires i < 4
  {
    var r := s.rx[i].reassembly;
    var bitmap := FragmentExpectedBitmap(r.fragmentCount);
    var (t, stored) := CurrentCredits(s);
    var u := t.(window := Store(t.window, r.datagramId, AckState(bitmap, stored, NONE)));
    var (v, credits) := CurrentCredits(u);
    ReleaseRxSlot(EnqueueAck(v, AckFrame(r.datagramId, bitmap, credits, NONE), AckDeadline(v, now)), i)
  }

  function TryCompleteRxSlot(s: Engine, i: nat, now: uint32): (Engine, bool)
    requires i < 4
  {
    if !ReassemblyIsComplete(s.rx[i].reassembly) then (s, false)
    else
      var (t, accepted) := Offer(s, i);
      if !accepted then (t, false) else (FinishDelivery(t, i, now), true)
  }

  function TryCompleteRxSlots(s: Engine, i: nat, now: uint32): (Engine, bool)
    requires i <= 4
    decreases 4 - i
  {
    if i == 4 then (s, false)
    else if !(s.rx[i].active && s.rx[i].waiting) then TryCompleteRxSlots(s, i + 1, now)
    else
      var (t, completed) := TryCompleteRxSlot(s, i, now);
      if completed then (t, true) else TryCompleteRxSlots(t, i + 1, now)
  }

  /** A slot for a new datagram, or 4 when none can be had. */
  function AllocateRxSlot(s: Engine): (r: (Engine, nat))
    ensures r.1 <= 4
  {
    var i := FirstInactive(s.rx, 0);
    if i == 4 then (s, 4)
    else
      var (pool, handle) := Acquire(s.rxPool);
      if handle.None? then (s, 4)
      else (s.(rxPool := pool, rx := s.rx[i := RxSlot(true, handle.value, ResetReassembly(V3_MAX_DATAGRAM), false)]), i)
  }

  function AcceptInto(s: Engine, i: nat, h: DataHeader, payload: Bytes): (Engine, FragmentResult)
    requires i < 4
  {
    var slot := s.rx[i];
    var a := AcceptFragment(slot.reassembly, Buffer(s.rxPool, slot.handle), h, payload);
    (s.(rxPool := WriteBuffer(s.rxPool, slot.handle, a.output), rx := s.rx[i := slot.(reassembly := a.state)]), a.result)
  }

  /** After a fragment went into slot i. */
  function AfterAccept(s: Engine, i: nat, h: DataHeader, now: uint32): Engine
    requires i < 4
  {
    if ReassemblyIsComplete(s.rx[i].reassembly) then
      var (t, completed) := TryCompleteRxSlot(s, i, now);
      if completed then t
      else QueueRxAck(SetRx(t, i, t.rx[i].(waiting := true)), i, CREDIT_WITHDRAWAL, now)
    else if h.flags % 2 == V3_DATA_FLAG_ROUND_END then QueueRxAck(s, i, NONE, now)
    else s
  }

  /** The slot for a fragment of an id the window does not know: its own, a new one, or 4. */
  function SlotForData(s: Engine, id: uint16): (r: (Engine, nat))
    ensures r.1 <= 4
  {
    var found := RxSlotFor(s.rx, id, 0);
    if found < 4 then (s, found) else AllocateRxSlot(s)
  }

  function DataInSlot(s: Engine, i: nat, h: DataHeader, payload: Bytes, now: uint32): Engine
    requires i < 4
  {
    var (t, result) := AcceptInto(s, i, h, payload);
    if result == METADATA_MISMATCH || result == BAD_ARGUMENT || result == FragmentResult.BAD_LENGTH
       || result == FragmentResult.OUTPUT_TOO_SMALL
    then QueueFailureAck(t, h.datagramId, t.rx[i].reassembly.receivedBitmap, MALFORMED_INPUT, now)
    else AfterAccept(t, i, h, now)
  }

  /** A duplicate of a delivered datagram is acknowledged again from the window. */
  function AckAgain(s: Engine, id: uint16, known: AckState, now: uint32): Engine {
    var (t, credits) := CurrentCredits(s);
    EnqueueAck(t, AckFrame(id, known.fragmentBitmap, credits, known.failure), AckDeadline(t, now))
  }

  function HandleData(s: Engine, h: DataHeader, payload: Bytes, now: uint32): Engine {
    match Find(s.window, h.datagramId)
    case Some(known) => AckAgain(s, h.datagramId, known, now)
    case None =>
      var (t, i) := SlotForData(s, h.datagramId);
      if i == 4 then QueueFailureAck(t, h.datagramId, {}, ALLOCATION_FAILURE, now)
      else DataInSlot(t, i, h, payload, now)
  }

  // ---- the public entry points ----

  function OnFrame(s: Engine, f: Frame, now: uint32): Engine {
    match f
    case DataFrame(h, payload) => HandleData(s, h, payload, now)
    case Ack(ack) => HandleAck(s, ack, now)
    case ControlFrame(_) => s
    case MgmtFrame(_) => s
  }

  function OnRxPacket(s: Engine, p: Packet, now: uint32): Engine {
    match Decode(p)
    case Failure(_) => s
    case Success(f) => OnFrame(s, f, now)
  }

  /** The transmit half of a tick. */
  function TxTick(s: Engine, now: uint32): Engine {
    var (t, retransmitted) := TrySendRetransmit(s, 0, now);
    if retransmitted then t
    else
      var (u, sent) := TrySendOpenData(t, 0, now);
      if sent then u else TryOpenQueued(u, now).0
  }

  function OnTick(s: Engine, now: uint32): Engine {
    var (t, completed) := TryCompleteRxSlots(s, 0, now);
    var (u, acknowledged) := SendPendingAck(t, now);
    if completed || acknowledged then u else TxTick(u, now)
  }

  // ---- the next deadline ----

  /** The earliest deadline among OPEN slots between rounds, from slot i on. */
  function RetryDeadlines(s: Engine, now: uint32, i: nat, best: Option<uint32>): Option<uint32>
    requires i <= 4
    decreases 4 - i
  {
    if i == 4 then best
    else
      var slot := s.tx[i];
      if slot.state != OPEN then RetryDeadlines(s, now, i + 1, best)
      else if FullBitmap(slot) <= slot.acked then Some(now)
      else if slot.round == {} && (best.None? || !Reached(slot.retryDeadline, best.value))
      then RetryDeadlines(s, now, i + 1, Some(slot.retryDeadline))
      else RetryDeadlines(s, now, i + 1, best)
  }

  predicate SomeWaiting(rx: RxSlots) {
    exists i :: 0 <= i < 4 && rx[i].active && rx[i].waiting
  }

  predicate SomeInRound(tx: TxSlots) {
    exists i :: 0 <= i < 4 && tx[i].state == OPEN && tx[i].round != {}
  }

  function NextDeadline(s: Engine, now: uint32): Option<uint32> {
    if |s.acks| > 0 then Some(s.acks[0].readyDeadline)
    else if SomeWaiting(s.rx) then Some(now)
    else if SomeInRound(s.tx) then Some(now)
    else if QueuedCount(s) > 0 && s.credits > 0 && ActiveCount(s) == 0 then Some(now)
    else
      RetryDeadlines(s, now, 0,
        if s.probeArmed && s.credits == 0 && QueuedCount(s) > 0 && ActiveCount(s) == 0
        then Some(s.probeDeadline) else None)
  }

  // ---- runs ----

  /** A call into the engine. Time may jump anywhere between calls. */
  datatype Input =
    | SubmitInput(data: Option<Bytes>)
    | PacketInput(packet: Packet, now: uint32)
    | TickInput(now: uint32)
    | FlushInput(now: uint32)

  function Apply(s: Engine, input: Input): Engine {
    match input
    case SubmitInput(data) => Submit(s, data).0
    case PacketInput(packet, now) => OnRxPacket(s, packet, now)
    case TickInput(now) => OnTick(s, now)
    case FlushInput(now) => FlushPendingAck(s, now).0
  }

  ghost predicate StepAt(states: seq<Engine>, inputs: seq<Input>, k: nat)
    requires k < |inputs| && |states| == |inputs| + 1
  {
    states[k + 1] == Apply(states[k], inputs[k])
  }

  /** The calls lead from each state to the next. */
  ghost predicate Trace(states: seq<Engine>, inputs: seq<Input>) {
    |states| == |inputs| + 1 && forall k :: 0 <= k < |inputs| ==> StepAt(states, inputs, k)
  }

  /** One call leads from s to t. */
  ghost predicate Leads(s: Engine, input: Input, t: Engine) {
    Trace([s, t], [input])
  }

  ghost predicate IsReset(s: Engine) {
    exists config, callbacks :: s == Reset(config, callbacks)
  }

  /** The k-th state after a reset. */
  ghost predicate StateAt(config: Config, callbacks: Callbacks, states: seq<Engine>, inputs: seq<Input>, k: nat)
    requires k <= |inputs| && |states| == |inputs| + 1
  {
    states[k] == if k == 0 then Reset(config, callbacks) else Apply(states[k - 1], inputs[k - 1])
  }

  ghost predicate History(config: Config, callbacks: Callbacks, states: seq<Engine>, inputs: seq<Input>) {
    |states| == |inputs| + 1 && forall k :: 0 <= k <= |inputs| ==> StateAt(config, callbacks, states, inputs, k)
  }

  /** The states any calls can lead to after a reset with any configuration and callbacks. */
  ghost predicate Reachable(s: Engine) {
    exists config, callbacks, states, inputs :: History(config, callbacks, states, inputs) && s == states[|inputs|]
  }

  lemma ReachableTrace(s: Engine) returns (states: seq<Engine>, inputs: seq<Input>)
    requires Reachable(s)
    ensures Trace(states, inputs) && IsReset(states[0]) && s == states[|inputs|]
  {
    hide Reset, Apply;
    var config, callbacks;
    config, callbacks, states, inputs :| History(config, callbacks, states, inputs) && s == states[|inputs|];
    assert StateAt(config, callbacks, states, inputs, 0);
    forall k | 0 <= k < |inputs| ensures StepAt(states, inputs, k) {
      assert StateAt(config, callbacks, states, inputs, k + 1);
    }
  }

  lemma LeadsIs(s: Engine, input: Input, t: Engine)
    requires Leads(s, input, t)
    ensures t == Apply(s, input)
  {
    assert StepAt([s, t], [input], 0);
  }
}
