/** The engine as the source has it: an object whose methods update slot arrays, pools, the
    duplicate window and scalars in place. Every method is proved to do to the abstract state
    exactly what the function of the same name in ArqState says. */
module ArqEngine {
  import opened Words
  import opened FramingV3
  import opened FragmentV3
  import opened DatagramPool
  import opened DuplicateWindow
  import opened ArqState
  import ArqInvariant

  const NO_ACK: PendingAck := PendingAck(AckFrame(0, {}, 0, NONE), 0)

  class Arq {
    var config: Config
    var callbacks: Callbacks
    const txPool: PoolObject
    const rxPool: PoolObject
    const window: WindowObject
    const tx: array<TxSlot>
    const rx: array<RxSlot>
    const pending: array<PendingAck>
    var pendingCount: nat
    var remoteCredits: byte
    var nextDatagramId: uint16
    var probeArmed: bool
    var probeDeadline: uint32
    /** What the callbacks' user pointer can remember, and the datagrams accepted so far. */
    var log: Log
    ghost var submitted: seq<Bytes>

    ghost function Parts(): set<object> {
      {this, txPool, txPool.storage, rxPool, rxPool.storage, window, window.entries, tx, rx, pending}
    }

    ghost predicate Shape()
      reads Parts()
    {
      && txPool != rxPool && txPool.storage != rxPool.storage
      && txPool.Valid() && rxPool.Valid() && window.Valid()
      && tx.Length == 4 && rx.Length == 4 && pending.Length == ARQ_PENDING_ACK_CAPACITY
      && pendingCount <= pending.Length
    }

    ghost function State(): Engine
      requires Shape()
      reads Parts()
    {
      Engine(config, callbacks, txPool.State(), rxPool.State(), window.State(), tx[..], rx[..], pending[..pendingCount],
             remoteCredits, nextDatagramId, probeArmed, probeDeadline, log, submitted)
    }

    /** The invariant every public method relies on and re-establishes. */
    ghost predicate Valid()
      reads Parts()
    {
      Shape() && ArqInvariant.Inv(State())
    }

    constructor (config: Config, callbacks: Callbacks)
      ensures Valid()
      ensures fresh(txPool) && fresh(txPool.storage) && fresh(rxPool) && fresh(rxPool.storage)
      ensures fresh(window) && fresh(window.entries) && fresh(tx) && fresh(rx) && fresh(pending)
      ensures State() == Reset(config, callbacks)
    {
      hide PoolOk, ArqInvariant.Inv, Reset, FreshPool, EmptyWindow;
      txPool := new PoolObject();
      rxPool := new PoolObject();
      window := new WindowObject();
      tx := new TxSlot[4];
      rx := new RxSlot[4];
      pending := new PendingAck[ARQ_PENDING_ACK_CAPACITY];
      pendingCount := 0;
      new;
      ResetEngine(config, callbacks);
    }

    method ClearSlots()
      requires Shape()
      modifies tx, rx
      ensures Shape() && tx[..] == NO_TX_SLOTS && rx[..] == NO_RX_SLOTS
    {
      hide PoolOk;
      forall i | 0 <= i < 4 {
        tx[i] := EMPTY_TX;
      }
      forall i | 0 <= i < 4 {
        rx[i] := EMPTY_RX;
      }
    }

    method ResetPools()
      requires Shape()
      modifies txPool, txPool.storage, rxPool, rxPool.storage
      ensures Shape() && txPool.State() == FreshPool() && rxPool.State() == FreshPool()
    {
      hide PoolOk, FreshPool;
      txPool.Reset();
      rxPool.Reset();
    }

    method ResetScalars(config: Config, callbacks: Callbacks)
      requires Shape()
      modifies this
      ensures Shape() && tx[..] == old(tx[..]) && rx[..] == old(rx[..])
      ensures State() == Engine(config, callbacks, old(txPool.State()), old(rxPool.State()), old(window.State()), tx[..],
                                rx[..], [], ClampCredits(config.initialRemoteCredits), config.initialDatagramId, false, 0,
                                [], [])
    {
      hide PoolOk;
      this.config, this.callbacks := config, callbacks;
      pendingCount := 0;
      remoteCredits := ClampCredits(config.initialRemoteCredits);
      nextDatagramId := config.initialDatagramId;
      probeArmed, probeDeadline := false, 0;
      log, submitted := [], [];
      assert pending[..pendingCount] == [];
    }

    method ResetEngine(config: Config, callbacks: Callbacks)
      requires Shape()
      modifies Parts()
      ensures Valid() && State() == Reset(config, callbacks)
    {
      hide FreshPool, EmptyWindow, ArqInvariant.Inv, PoolOk, NO_TX_SLOTS, NO_RX_SLOTS;
      ResetPools();
      window.Reset();
      ClearSlots();
      ResetScalars(config, callbacks);
      ArqInvariant.ResetInv(config, callbacks);
    }

    // ---- assignments ----

    method Record(e: Event)
      requires Shape()
      modifies this
      ensures Shape() && State() == Note(old(State()), e)
    {
      hide PoolOk;
      log := log + [e];
    }

    method SetTxSlot(i: nat, slot: TxSlot)
      requires Shape() && i < 4
      modifies tx
      ensures Shape() && State() == SetTx(old(State()), i, slot)
    {
      hide PoolOk;
      tx[i] := slot;
      assert tx[..] == old(tx[..])[i := slot];
    }

    method SetRxSlot(i: nat, slot: RxSlot)
      requires Shape() && i < 4
      modifies rx
      ensures Shape() && State() == SetRx(old(State()), i, slot)
    {
      hide PoolOk;
      rx[i] := slot;
      assert rx[..] == old(rx[..])[i := slot];
    }

    // ---- queries ----

    method CountState(state: TxState) returns (count: nat)
      requires Shape()
      ensures count == CountTx(State().tx, state, 4)
    {
      hide PoolOk;
      count := 0;
      for i := 0 to 4
        invariant count == CountTx(State().tx, state, i)
      {
        if tx[i].state == state {
          count := count + 1;
        }
      }
    }

    method FirstSlot(state: TxState) returns (k: nat)
      requires Shape()
      ensures k == FirstTx(State().tx, state, 0)
    {
      hide PoolOk;
      k := 0;
      while k < 4
        invariant k <= 4 && FirstTx(State().tx, state, 0) == FirstTx(State().tx, state, k)
      {
        if tx[k].state == state {
          return;
        }
        k := k + 1;
      }
    }

    // ---- credits and acknowledgements ----

    method AskEgressCapacity(default: byte) returns (n: byte)
      requires Shape()
      modifies this
      ensures Shape() && (State(), n) == AskEgress(old(State()), default)
    {
      match callbacks.egress
      case None =>
        n := default;
      case Some(f) =>
        n := f(log);
        Record(EgressAsked(n));
    }

    method Credits() returns (credits: byte)
      requires Shape()
      modifies this
      ensures Shape() && (State(), credits) == CurrentCredits(old(State()))
    {
      hide PoolOk;
      var egress := AskEgressCapacity(ARQ_MAX_RX_DATAGRAMS);
      var slots := 0;
      for i := 0 to 4
        invariant slots == CountInactive(State().rx, i)
      {
        if !rx[i].active {
          slots := slots + 1;
        }
      }
      var fewest := rxPool.FreeCount();
      if fewest > slots {
        fewest := slots;
      }
      if fewest > egress {
        fewest := egress;
      }
      credits := ClampCredits(fewest);
    }

    method EnqueuePending(ack: AckFrame, ready: uint32)
      requires Shape()
      modifies this, pending
      ensures Shape() && State() == EnqueueAck(old(State()), ack, ready)
    {
      hide PoolOk;
      var k := 0;
      while k < pendingCount
        invariant k <= pendingCount && unchanged(this) && unchanged(pending)
        invariant PendingAckFor(State().acks, ack.datagramId, 0) == PendingAckFor(State().acks, ack.datagramId, k)
      {
        if pending[k].ack.datagramId == ack.datagramId {
          pending[k] := PendingAck(ack, ready);
          assert pending[..pendingCount] == old(pending[..pendingCount])[k := PendingAck(ack, ready)];
          return;
        }
        k := k + 1;
      }
      if pendingCount >= ARQ_PENDING_ACK_CAPACITY {
        return;
      }
      pending[pendingCount] := PendingAck(ack, ready);
      pendingCount := pendingCount + 1;
      assert pending[..pendingCount] == old(pending[..pendingCount]) + [PendingAck(ack, ready)];
    }

    method SendPending(now: uint32) returns (sent: bool)
      requires Shape()
      modifies this, pending
      ensures Shape() && (State(), sent) == SendPendingAck(old(State()), now)
    {
      hide PoolOk, Encode;
      if pendingCount == 0 || callbacks.send.None? {
        return false;
      }
      if !Reached(now, pending[0].readyDeadline) {
        return false;
      }
      var f := Ack(pending[0].ack);
      var packet := new PacketBuffer();
      packet.BuildAck(pending[0].ack);
      sent := callbacks.send.value(log, RawPacket(packet.data[..], packet.len));
      Record(Sent(f, sent));
      if !sent {
        return;
      }
      DropFirstPending();
    }

    method DropFirstPending()
      requires Shape() && pendingCount > 0
      modifies this`pendingCount, pending
      ensures Shape() && State() == old(State()).(acks := old(State()).acks[1..])
    {
      hide PoolOk;
      ghost var acks := pending[..pendingCount];
      for i := 1 to pendingCount
        invariant unchanged(this)
        invariant forall j :: 0 <= j < i - 1 ==> pending[j] == acks[j + 1]
        invariant forall j :: 0 <= i - 1 <= j < pendingCount ==> pending[j] == acks[j]
      {
        pending[i - 1] := pending[i];
      }
      pendingCount := pendingCount - 1;
      assert pending[..pendingCount] == acks[1..];
    }

    // ---- transmitting ----

    /** The bytes behind a slot's buffer pointer. */
    method ReadSlot(i: nat) returns (data: Option<Bytes>)
      requires Shape() && i < 4
      ensures data == SlotData(State(), State().tx[i])
    {
      var slot := tx[i];
      var buffer := if slot.handle < txPool.storage.Length then txPool.storage[slot.handle] else [];
      data := if slot.len <= |buffer| then Some(buffer[..slot.len]) else None;
    }

    method BuildFragment(i: nat, k: nat) returns (frame: Option<Frame>)
      requires Shape() && i < 4
      ensures frame == FragmentFrame(State(), i, k)
    {
      hide PoolOk;
      var slot := tx[i];
      var data := ReadSlot(i);
      if data.None? {
        return None;
      }
      var hint := CountState(QUEUED);
      var fragments := Describe(data.value, slot.datagramId, RoundFlags(slot, k), hint, V3_MAX_FRAGS);
      if fragments.Failure? || k >= |fragments.value| {
        return None;
      }
      var f := DataFrame(fragments.value[k].header, fragments.value[k].payload);
      return if Buildable(f) then Some(f) else None;
    }

    method SendFragment(i: nat, k: nat) returns (sent: bool)
      requires Shape() && i < 4
      modifies this
      ensures Shape() && (State(), sent) == SendDataFragment(old(State()), i, k)
    {
      hide PoolOk, Encode, FragmentFrame;
      var frame := BuildFragment(i, k);
      if frame.None? || callbacks.send.None? {
        return false;
      }
      var packet := new PacketBuffer();
      var error := packet.BuildData(frame.value.header, Some(frame.value.payload));
      sent := callbacks.send.value(log, RawPacket(packet.data[..], packet.len));
      Record(Sent(frame.value, sent));
    }

    method SendNextFragment(i: nat, now: uint32) returns (sent: bool)
      requires Shape() && i < 4
      modifies this, tx
      ensures Shape() && (State(), sent) == SendNext(old(State()), i, now)
    {
      hide PoolOk, SendDataFragment;
      var k := tx[i].nextFragment;
      if k >= tx[i].fragmentCount {
        return false;
      }
      sent := SendFragment(i, k);
      if sent {
        SetTxSlot(i, AfterFragment(tx[i], k, Wrap32(now + config.retryTimeout)));
      }
    }

    method ScanRound(slot: TxSlot, start: byte) returns (n: byte)
      ensures n == Scan(slot, start)
    {
      n := start;
      while n < slot.fragmentCount && n !in slot.round
        invariant Scan(slot, start) == Scan(slot, n)
        decreases slot.fragmentCount - n
      {
        n := n + 1;
      }
    }

    method Clear(i: nat)
      requires Shape() && i < 4
      modifies txPool, tx
      ensures Shape() && State() == ClearTxSlot(old(State()), i)
    {
      hide PoolOk, Release;
      if tx[i].handle < DATAGRAM_POOL_CAPACITY {
        var result := txPool.ReleaseBuffer(tx[i].handle);
      }
      SetTxSlot(i, EMPTY_TX);
    }

    method Fail(i: nat)
      requires Shape() && i < 4
      modifies this, txPool, tx
      ensures Shape() && State() == FailTxSlot(old(State()), i)
    {
      hide ClearTxSlot;
      Record(Exhausted(tx[i].datagramId));
      Clear(i);
    }

    method Complete(i: nat)
      requires Shape() && i < 4
      modifies this, txPool, tx
      ensures Shape() && State() == CompleteTxSlot(old(State()), i)
    {
      hide ClearTxSlot;
      Record(Completed(tx[i].datagramId));
      Clear(i);
    }

    method SendRetransmit(now: uint32) returns (sent: bool)
      requires Shape()
      modifies this, txPool, tx
      ensures Shape() && (State(), sent) == TrySendRetransmit(old(State()), 0, now)
    {
      hide PoolOk, SendNext, FailTxSlot, NewRound;
      ghost var goal := TrySendRetransmit(State(), 0, now);
      for i := 0 to 4
        invariant Shape() && goal == TrySendRetransmit(State(), i, now)
      {
        var slot := tx[i];
        if slot.state != OPEN || slot.round != {} || FullBitmap(slot) <= slot.acked
           || !Reached(now, slot.retryDeadline) {
          assert !RetransmitDue(State(), i, now);
          continue;
        }
        assert RetransmitDue(State(), i, now);
        if slot.attempts >= config.maxAttempts {
          Fail(i);
          return false;
        }
        var started := slot.(attempts := slot.attempts + 1, round := FullBitmap(slot) - slot.acked);
        var n := ScanRound(started, 0);
        assert started.(nextFragment := n) == NewRound(slot) by {
          StartedIsNewRound(slot, started, n);
        }
        SetTxSlot(i, started.(nextFragment := n));
        var ok := SendNextFragment(i, now);
        if ok {
          return true;
        }
      }
      return false;
    }

    lemma StartedIsNewRound(slot: TxSlot, started: TxSlot, n: byte)
      requires slot.attempts < 0xFF
      requires started == slot.(attempts := slot.attempts + 1, round := FullBitmap(slot) - slot.acked)
      requires n == Scan(started, 0)
      ensures started.(nextFragment := n) == NewRound(slot)
    {}

    method SendOpenData(now: uint32) returns (sent: bool)
      requires Shape()
      modifies this, tx
      ensures Shape() && (State(), sent) == TrySendOpenData(old(State()), 0, now)
    {
      hide PoolOk, SendNext, Scan;
      ghost var goal := TrySendOpenData(State(), 0, now);
      for i := 0 to 4
        invariant Shape() && goal == TrySendOpenData(State(), i, now)
      {
        if tx[i].state != OPEN || tx[i].round == {} {
          continue;
        }
        var n := ScanRound(tx[i], tx[i].nextFragment);
        var slot := tx[i].(nextFragment := n);
        if n >= slot.fragmentCount {
          SetTxSlot(i, slot.(round := {}, retryDeadline := Wrap32(now + config.retryTimeout)));
          continue;
        }
        SetTxSlot(i, slot);
        var ok := SendNextFragment(i, now);
        if ok {
          return true;
        }
      }
      return false;
    }

    method Open(i: nat, now: uint32)
      requires Shape() && i < 4
      modifies this, tx
      ensures Shape() && State() == OpenSlot(old(State()), i, now)
    {
      hide PoolOk;
      var slot := tx[i];
      SetTxSlot(i, slot.(state := OPEN, acked := {}, round := FullBitmap(slot), nextFragment := 0, attempts := 1,
                         retryDeadline := Wrap32(now + config.retryTimeout)));
      Record(Opened(slot.datagramId, remoteCredits == 0));
      if remoteCredits > 0 {
        remoteCredits := remoteCredits - 1;
      }
    }

    method OpenQueued(now: uint32) returns (sent: bool)
      requires Shape()
      modifies this, tx
      ensures Shape() && (State(), sent) == TryOpenQueued(old(State()), now)
    {
      hide PoolOk, OpenSlot, TrySendOpenData, Wrap32, Reached, CountTx;
      var active := CountState(OPEN);
      if active != 0 {
        return false;
      }
      if remoteCredits == 0 {
        var queued := CountState(QUEUED);
        if queued == 0 {
          probeArmed := false;
          return false;
        }
        if !probeArmed {
          probeArmed := true;
          probeDeadline := Wrap32(now + config.creditStallTimeout);
          return false;
        }
        if !Reached(now, probeDeadline) {
          return false;
        }
      }
      probeArmed := false;
      var i := FirstSlot(QUEUED);
      if i == 4 {
        return false;
      }
      Open(i, now);
      sent := SendOpenData(now);
    }

    method TransmitTick(now: uint32)
      requires Shape()
      modifies this, txPool, tx
      ensures Shape() && State() == TxTick(old(State()), now)
    {
      hide PoolOk, TrySendRetransmit, TrySendOpenData, TryOpenQueued;
      var sent := SendRetransmit(now);
      if sent {
        return;
      }
      sent := SendOpenData(now);
      if sent {
        return;
      }
      sent := OpenQueued(now);
    }

    // ---- the next deadline ----

    method WaitingOnEgress() returns (found: bool)
      requires Shape()
      ensures found == SomeWaiting(State().rx)
    {
      hide PoolOk;
      for i := 0 to 4
        invariant forall j :: 0 <= j < i ==> !(rx[j].active && rx[j].waiting)
      {
        if rx[i].active && rx[i].waiting {
          assert State().rx[i].active && State().rx[i].waiting;
          return true;
        }
      }
      return false;
    }

    method InRound() returns (found: bool)
      requires Shape()
      ensures found == SomeInRound(State().tx)
    {
      hide PoolOk;
      for i := 0 to 4
        invariant forall j :: 0 <= j < i ==> !(tx[j].state == OPEN && tx[j].round != {})
      {
        if tx[i].state == OPEN && tx[i].round != {} {
          assert State().tx[i].state == OPEN && State().tx[i].round != {};
          return true;
        }
      }
      return false;
    }

    method EarliestRetry(now: uint32, probe: Option<uint32>) returns (best: Option<uint32>)
      requires Shape()
      ensures best == RetryDeadlines(State(), now, 0, probe)
    {
      hide PoolOk, FullBitmap, Reached;
      best := probe;
      for i := 0 to 4
        invariant RetryDeadlines(State(), now, 0, probe) == RetryDeadlines(State(), now, i, best)
      {
        var slot := tx[i];
        if slot.state != OPEN {
          continue;
        }
        if FullBitmap(slot) <= slot.acked {
          return Some(now);
        }
        if slot.round == {} && (best.None? || !Reached(slot.retryDeadline, best.value)) {
          best := Some(slot.retryDeadline);
        }
      }
    }

    method Deadline(now: uint32) returns (deadline: Option<uint32>)
      requires Shape()
      ensures deadline == NextDeadline(State(), now)
    {
      hide PoolOk, RetryDeadlines, CountTx, SomeWaiting, SomeInRound;
      if pendingCount > 0 {
        return Some(pending[0].readyDeadline);
      }
      var waiting := WaitingOnEgress();
      if waiting {
        return Some(now);
      }
      var sending := InRound();
      if sending {
        return Some(now);
      }
      var queued := CountState(QUEUED);
      var active := CountState(OPEN);
      if queued > 0 && remoteCredits > 0 && active == 0 {
        return Some(now);
      }
      var probe := if probeArmed && remoteCredits == 0 && queued > 0 && active == 0 then Some(probeDeadline) else None;
      deadline := EarliestRetry(now, probe);
    }

    // ---- submitting and being acknowledged ----

    /** `memcpy(lease.data, data, len)`, the slot, and the next id. */
    method PlaceDatagram(i: nat, handle: nat, d: Bytes)
      requires Shape() && i < 4 && 0 < |d| <= V3_MAX_DATAGRAM && handle < DATAGRAM_POOL_CAPACITY
      modifies this, txPool.storage, tx
      ensures Shape() && State() == Place(old(State()), i, old(txPool.State()), handle, d)
    {
      ArqInvariant.WriteKeepsPool(txPool.State(), handle, Filled(txPool.storage[handle], d));
      hide PoolOk, Filled;
      ghost var was := txPool.State();
      txPool.storage[handle] := Filled(txPool.storage[handle], d);
      assert txPool.State() == WriteBuffer(was, handle, Filled(Buffer(was, handle), d));
      hide WriteBuffer, Buffer;
      SetTxSlot(i, TxSlot(QUEUED, handle, |d|, nextDatagramId, ExpectedFragmentCount(|d|), {}, {}, 0, 0, 0));
      Record(Submitted(nextDatagramId, d));
      nextDatagramId := (nextDatagramId + 1) % 0x1_0000;
      submitted := submitted + [d];
    }

    method TakeBuffer(i: nat, d: Bytes) returns (result: ArqResult)
      requires Shape() && i < 4 && 0 < |d| <= V3_MAX_DATAGRAM
      modifies this, txPool, txPool.storage, tx
      ensures Shape()
      ensures var (pool, handle) := Acquire(old(State()).txPool);
              (State(), result) == if handle.None? then (old(State()), ALLOCATION_FAILED)
                                   else (Place(old(State()), i, pool, handle.value, d), ARQ_OK)
    {
      hide PoolOk, Place, Acquire;
      ghost var was := State();
      var handle := txPool.AcquireBuffer();
      if handle.None? {
        NothingAcquired(was.txPool);
        return ALLOCATION_FAILED;
      }
      AcquiredHandle(was.txPool);
      PlaceDatagram(i, handle.value, d);
      PlacedFromAcquired(was, i, Acquire(was.txPool).0, handle.value, d);
      return ARQ_OK;
    }

    method OnTxDatagram(data: Option<Bytes>) returns (result: ArqResult)
      requires Valid()
      modifies Parts()
      ensures Valid() && (State(), result) == Submit(old(State()), data)
    {
      ArqInvariant.SubmitStep(State(), data);
      hide PoolOk, ArqInvariant.Inv, Place, Acquire;
      match data
      case None =>
        return BAD_ARGUMENT_R;
      case Some(d) =>
        if |d| == 0 || |d| > V3_MAX_DATAGRAM {
          return BAD_LENGTH_R;
        }
        var i := FirstSlot(EMPTY);
        if i == 4 {
          return NO_TX_SLOT;
        }
        result := TakeBuffer(i, d);
    }

    lemma NothingAcquired(p: Pool)
      requires Acquire(p).1.None?
      ensures Acquire(p).0 == p
    {}

    lemma AcquiredHandle(p: Pool)
      requires Acquire(p).1.Some?
      ensures Acquire(p).1.value < DATAGRAM_POOL_CAPACITY
    {}

    lemma PlacedFromAcquired(s: Engine, i: nat, pool: Pool, handle: nat, d: Bytes)
      requires i < 4 && |d| <= V3_MAX_DATAGRAM
      ensures Place(s.(txPool := pool), i, pool, handle, d) == Place(s, i, pool, handle, d)
    {}

    method ReceiveAck(ack: AckFrame, now: uint32)
      requires Shape()
      modifies this, txPool, tx
      ensures Shape() && State() == HandleAck(old(State()), ack, now)
    {
      hide PoolOk, CompleteTxSlot;
      Record(AckSeen(ack));
      remoteCredits := ClampCredits(ack.receiverCredits);
      var i := 0;
      while i < 4 && !(tx[i].state == OPEN && tx[i].datagramId == ack.datagramId)
        invariant i <= 4 && OpenSlotFor(State().tx, ack.datagramId, 0) == OpenSlotFor(State().tx, ack.datagramId, i)
      {
        i := i + 1;
      }
      if i == 4 {
        return;
      }
      if ack.failure == CREDIT_WITHDRAWAL {
        SetTxSlot(i, tx[i].(acked := tx[i].acked * ack.fragmentBitmap, round := {}, nextFragment := 0, attempts := 1,
                            retryDeadline := Wrap32(now + config.creditStallTimeout)));
        return;
      }
      SetTxSlot(i, tx[i].(acked := tx[i].acked + ack.fragmentBitmap));
      if FullBitmap(tx[i]) <= tx[i].acked && ack.failure == NONE {
        Complete(i);
      }
    }

    // ---- receiving data ----

    method QueueFailure(id: uint16, bitmap: Bitmap, failure: FailureStatus, now: uint32)
      requires Shape()
      modifies this, pending
      ensures Shape() && State() == QueueFailureAck(old(State()), id, bitmap, failure, now)
    {
      hide PoolOk, CurrentCredits, EnqueueAck;
      var credits := Credits();
      EnqueuePending(AckFrame(id, bitmap, credits, failure), Wrap32(now + config.ackTurnaround));
    }

    method QueueRx(i: nat, failure: FailureStatus, now: uint32)
      requires Shape() && i < 4
      modifies this, pending
      ensures Shape() && State() == QueueRxAck(old(State()), i, failure, now)
    {
      hide PoolOk, CurrentCredits, EnqueueAck;
      var r := rx[i].reassembly;
      if failure == CREDIT_WITHDRAWAL {
        EnqueuePending(AckFrame(r.datagramId, WithdrawnBitmap(r), 0, failure), Wrap32(now + config.ackTurnaround));
      } else {
        var credits := Credits();
        EnqueuePending(AckFrame(r.datagramId, r.receivedBitmap, credits, failure), Wrap32(now + config.ackTurnaround));
      }
    }

    method ReleaseSlot(i: nat)
      requires Shape() && i < 4
      modifies rxPool, rx
      ensures Shape() && State() == ReleaseRxSlot(old(State()), i)
    {
      hide PoolOk, Release;
      if rx[i].handle < DATAGRAM_POOL_CAPACITY {
        var result := rxPool.ReleaseBuffer(rx[i].handle);
      }
      SetRxSlot(i, EMPTY_RX);
    }

    method OfferDatagram(i: nat) returns (accepted: bool)
      requires Shape() && i < 4
      modifies this
      ensures Shape() && (State(), accepted) == Offer(old(State()), i)
    {
      hide PoolOk, AskEgress;
      var egress := AskEgressCapacity(1);
      if egress == 0 || callbacks.deliver.None? {
        return false;
      }
      var slot := rx[i];
      var buffer := if slot.handle < rxPool.storage.Length then rxPool.storage[slot.handle] else [];
      var length := slot.reassembly.datagramLength;
      var output := if length <= |buffer| then buffer[..length] else [];
      accepted := callbacks.deliver.value(log, output);
      Record(Delivered(slot.reassembly.datagramId, output, accepted));
    }

    method Finish(i: nat, now: uint32)
      requires Shape() && i < 4
      modifies this, rxPool, rx, window, window.entries, pending
      ensures Shape() && State() == FinishDelivery(old(State()), i, now)
    {
      hide PoolOk, CurrentCredits, EnqueueAck, ReleaseRxSlot, Store;
      var r := rx[i].reassembly;
      var bitmap := FragmentExpectedBitmap(r.fragmentCount);
      var stored := Credits();
      window.StoreInPlace(r.datagramId, AckState(bitmap, stored, NONE));
      var credits := Credits();
      EnqueuePending(AckFrame(r.datagramId, bitmap, credits, NONE), Wrap32(now + config.ackTurnaround));
      ReleaseSlot(i);
    }

    method TryComplete(i: nat, now: uint32) returns (completed: bool)
      requires Shape() && i < 4
      modifies this, rxPool, rx, window, window.entries, pending
      ensures Shape() && (State(), completed) == TryCompleteRxSlot(old(State()), i, now)
    {
      hide PoolOk, Offer, FinishDelivery;
      if !ReassemblyIsComplete(rx[i].reassembly) {
        return false;
      }
      var accepted := OfferDatagram(i);
      if !accepted {
        return false;
      }
      Finish(i, now);
      return true;
    }

    method CompleteWaiting(now: uint32) returns (completed: bool)
      requires Shape()
      modifies this, rxPool, rx, window, window.entries, pending
      ensures Shape() && (State(), completed) == TryCompleteRxSlots(old(State()), 0, now)
    {
      hide PoolOk, TryCompleteRxSlot;
      ghost var goal := TryCompleteRxSlots(State(), 0, now);
      for i := 0 to 4
        invariant Shape() && goal == TryCompleteRxSlots(State(), i, now)
      {
        if rx[i].active && rx[i].waiting {
          var done := TryComplete(i, now);
          if done {
            return true;
          }
        }
      }
      return false;
    }

    method FindRx(id: uint16) returns (i: nat)
      requires Shape()
      ensures i == RxSlotFor(State().rx, id, 0)
    {
      hide PoolOk;
      i := 0;
      while i < 4 && !(rx[i].active && rx[i].reassembly.datagramId == id)
        invariant i <= 4 && RxSlotFor(State().rx, id, 0) == RxSlotFor(State().rx, id, i)
      {
        i := i + 1;
      }
    }

    method AllocateRx() returns (i: nat)
      requires Shape()
      modifies rxPool, rx
      ensures Shape() && (State(), i) == AllocateRxSlot(old(State()))
    {
      hide PoolOk, Acquire;
      i := 0;
      while i < 4 && rx[i].active
        invariant i <= 4 && FirstInactive(State().rx, 0) == FirstInactive(State().rx, i)
      {
        i := i + 1;
      }
      if i == 4 {
        return;
      }
      ghost var was := rxPool.State();
      var handle := rxPool.AcquireBuffer();
      if handle.None? {
        NothingAcquired(was);
        i := 4;
        return;
      }
      SetRxSlot(i, RxSlot(true, handle.value, ResetReassembly(V3_MAX_DATAGRAM), false));
    }

    method SlotFor(id: uint16) returns (i: nat)
      requires Shape()
      modifies rxPool, rx
      ensures Shape() && (State(), i) == SlotForData(old(State()), id)
    {
      hide PoolOk, AllocateRxSlot;
      i := FindRx(id);
      if i == 4 {
        i := AllocateRx();
      }
    }

    /** `acceptFragment` on the slot's reassembly and the buffer it points at. */
    method AcceptIn(i: nat, h: DataHeader, payload: Bytes) returns (result: FragmentResult)
      requires Shape() && i < 4
      modifies rxPool.storage, rx
      ensures Shape() && (State(), result) == AcceptInto(old(State()), i, h, payload)
    {
      var slot := rx[i];
      var buffer := if slot.handle < rxPool.storage.Length then rxPool.storage[slot.handle] else [];
      var a := AcceptFragment(slot.reassembly, buffer, h, payload);
      ghost var was := rxPool.State();
      if slot.handle < DATAGRAM_POOL_CAPACITY {
        ArqInvariant.WriteKeepsPool(was, slot.handle, a.output);
      }
      hide PoolOk, AcceptFragment;
      if slot.handle < rxPool.storage.Length {
        rxPool.storage[slot.handle] := a.output;
      }
      assert rxPool.State() == WriteBuffer(was, slot.handle, a.output);
      hide WriteBuffer, Buffer;
      SetRxSlot(i, slot.(reassembly := a.state));
      result := a.result;
    }

    method AfterAccepted(i: nat, h: DataHeader, now: uint32)
      requires Shape() && i < 4
      modifies this, rxPool, rx, window, window.entries, pending
      ensures Shape() && State() == AfterAccept(old(State()), i, h, now)
    {
      hide PoolOk, TryCompleteRxSlot, QueueRxAck;
      if ReassemblyIsComplete(rx[i].reassembly) {
        var completed := TryComplete(i, now);
        if completed {
          return;
        }
        SetRxSlot(i, rx[i].(waiting := true));
        QueueRx(i, CREDIT_WITHDRAWAL, now);
        return;
      }
      if h.flags % 2 == V3_DATA_FLAG_ROUND_END {
        QueueRx(i, NONE, now);
      }
    }

    method ReceiveData(h: DataHeader, payload: Bytes, now: uint32)
      requires Shape()
      modifies Parts()
      ensures Shape() && State() == HandleData(old(State()), h, payload, now)
    {
      hide PoolOk, CurrentCredits, EnqueueAck, Find, SlotForData, AcceptInto, AfterAccept, QueueFailureAck;
      var known := window.Lookup(h.datagramId);
      if known.Some? {
        var credits := Credits();
        EnqueuePending(AckFrame(h.datagramId, known.value.fragmentBitmap, credits, known.value.failure),
                       Wrap32(now + config.ackTurnaround));
        return;
      }
      var i := SlotFor(h.datagramId);
      if i == 4 {
        QueueFailure(h.datagramId, {}, ALLOCATION_FAILURE, now);
        return;
      }
      var result := AcceptIn(i, h, payload);
      if result == METADATA_MISMATCH || result == BAD_ARGUMENT || result == FragmentResult.BAD_LENGTH
         || result == FragmentResult.OUTPUT_TOO_SMALL {
        QueueFailure(h.datagramId, rx[i].reassembly.receivedBitmap, MALFORMED_INPUT, now);
        return;
      }
      AfterAccepted(i, h, now);
    }

    // ---- the public entry points ----

    method OnPacket(packet: Packet, now: uint32)
      requires Valid()
      modifies Parts()
      ensures Valid() && State() == OnRxPacket(old(State()), packet, now)
    {
      ArqInvariant.OnRxPacketStep(State(), packet, now);
      hide PoolOk, ArqInvariant.Inv, Decode, HandleData, HandleAck;
      match Decode(packet)
      case Failure(_) =>
      case Success(f) =>
        match f
        case DataFrame(h, payload) => ReceiveData(h, payload, now);
        case Ack(ack) => ReceiveAck(ack, now);
        case ControlFrame(_) =>
        case MgmtFrame(_) =>
    }

    method Tick(now: uint32)
      requires Valid()
      modifies Parts()
      ensures Valid() && State() == OnTick(old(State()), now)
    {
      ArqInvariant.OnTickKeepsInv(State(), now);
      hide PoolOk, ArqInvariant.Inv, TryCompleteRxSlots, SendPendingAck, TxTick;
      var completed := CompleteWaiting(now);
      if completed {
        var ignored := SendPending(now);
        return;
      }
      var acknowledged := SendPending(now);
      if acknowledged {
        return;
      }
      TransmitTick(now);
    }

    method Flush(now: uint32) returns (sent: bool)
      requires Valid()
      modifies Parts()
      ensures Valid() && (State(), sent) == FlushPendingAck(old(State()), now)
    {
      ArqInvariant.SendPendingAckStep(State(), now);
      hide PoolOk, ArqInvariant.Inv, SendPendingAck;
      sent := SendPending(now);
    }
  }
}
