/** What every operation of the engine keeps, whatever packets arrive and whatever the callbacks
    answer: buffer ownership, well-formed slots, the credit ledger and the datagram count. */
module ArqInvariant {
  import opened Words
  import opened FramingV3
  import opened FragmentV3
  import opened DatagramPool
  import opened DuplicateWindow
  import opened ArqState

  // ---- transmit slots and their buffers ----

  predicate Holds(slot: TxSlot, h: nat) {
    slot.state != EMPTY && slot.handle == h
  }

  predicate TxOwns(tx: TxSlots, h: nat) {
    Holds(tx[0], h) || Holds(tx[1], h) || Holds(tx[2], h) || Holds(tx[3], h)
  }

  function MaxRounds(c: Config): byte {
    if c.maxAttempts == 0 then 1 else c.maxAttempts
  }

  predicate TxSlotOk(c: Config, slot: TxSlot) {
    if slot.state == EMPTY then slot == EMPTY_TX
    else
      && 0 < slot.len <= V3_MAX_DATAGRAM && slot.fragmentCount == ExpectedFragmentCount(slot.len)
      && slot.round <= FullBitmap(slot) && slot.nextFragment <= slot.fragmentCount
      && (forall k :: k in slot.round ==> slot.nextFragment <= k)
      && (slot.state == QUEUED ==> slot.round == {} && slot.acked == {} && slot.attempts == 0)
      && (slot.state == OPEN ==> 1 <= slot.attempts <= MaxRounds(c))
  }

  predicate TxSlotsOk(c: Config, tx: TxSlots) {
    && (forall i :: 0 <= i < 4 ==> TxSlotOk(c, tx[i]))
    && (forall i, j :: 0 <= i < j < 4 ==> !(tx[i].state == OPEN && tx[j].state == OPEN))
  }

  /** The slots in use and the allocated pool bits are in bijection, and no release was ever refused. */
  predicate TxBuffersOk(tx: TxSlots, pool: Pool) {
    && PoolOk(pool) && pool.invalidReleases == 0
    && (forall i :: 0 <= i < 4 && tx[i].state != EMPTY ==> tx[i].handle < DATAGRAM_POOL_CAPACITY)
    && (forall i, j :: 0 <= i < j < 4 && tx[i].state != EMPTY && tx[j].state != EMPTY ==> tx[i].handle != tx[j].handle)
    && (forall h :: 0 <= h < DATAGRAM_POOL_CAPACITY ==> (TxOwns(tx, h) <==> h !in pool.free))
  }

  predicate TxOk(c: Config, tx: TxSlots, pool: Pool) {
    TxSlotsOk(c, tx) && TxBuffersOk(tx, pool)
  }

  // ---- receive slots, their buffers and the window ----

  predicate RxHolds(slot: RxSlot, h: nat) {
    slot.active && slot.handle == h
  }

  predicate RxOwns(rx: RxSlots, h: nat) {
    RxHolds(rx[0], h) || RxHolds(rx[1], h) || RxHolds(rx[2], h) || RxHolds(rx[3], h)
  }

  predicate RxSlotOk(slot: RxSlot) {
    if !slot.active then slot == EMPTY_RX
    else
      && slot.handle < DATAGRAM_POOL_CAPACITY
      && Consistent(slot.reassembly) && slot.reassembly.outputCapacity == V3_MAX_DATAGRAM
      && (slot.waiting ==> ReassemblyIsComplete(slot.reassembly))
  }

  /** An active slot that a packet is not being put into. */
  predicate Settled(slot: RxSlot) {
    slot.reassembly.active && (ReassemblyIsComplete(slot.reassembly) ==> slot.waiting)
  }

  predicate RxPoolOk(rx: RxSlots, pool: Pool) {
    && PoolOk(pool) && pool.invalidReleases == 0
    && (forall i :: 0 <= i < 4 ==> RxSlotOk(rx[i]))
    && (forall i, j :: 0 <= i < j < 4 && rx[i].active && rx[j].active ==> rx[i].handle != rx[j].handle)
    && (forall h :: 0 <= h < DATAGRAM_POOL_CAPACITY ==> (RxOwns(rx, h) <==> h !in pool.free))
  }

  /** No id is in two active slots, or in a slot and the window; slot `hole` is not looked at. */
  predicate IdsOk(window: Window, rx: RxSlots, hole: nat) {
    && WindowOk(window)
    && (forall i :: 0 <= i < 4 && i != hole && rx[i].active ==>
          Settled(rx[i]) && Find(window, rx[i].reassembly.datagramId).None?)
    && (forall i, j :: 0 <= i < j < 4 && i != hole && j != hole && rx[i].active && rx[j].active ==>
          rx[i].reassembly.datagramId != rx[j].reassembly.datagramId)
  }

  predicate AcksOk(acks: seq<PendingAck>) {
    && |acks| <= ARQ_PENDING_ACK_CAPACITY
    && forall i, j :: 0 <= i < j < |acks| ==> acks[i].ack.datagramId != acks[j].ack.datagramId
  }

  predicate RxOk(s: Engine) {
    RxPoolOk(s.rx, s.rxPool) && IdsOk(s.window, s.rx, 4) && AcksOk(s.acks)
  }

  // ---- conservation over the log ----

  /** Credits left: those of the last acknowledgement, or the initial ones, less the ordinary
      opens since. */
  function Ledger(log: Log, initial: byte): int {
    if |log| == 0 then ClampCredits(initial)
    else
      match log[|log| - 1]
      case AckSeen(ack) => ClampCredits(ack.receiverCredits)
      case Opened(_, probe) => Ledger(log[..|log| - 1], initial) - (if probe then 0 else 1)
      case _ => Ledger(log[..|log| - 1], initial)
  }

  /** Datagrams that left the transmit side, acknowledged or given up. */
  function Finished(log: Log): nat {
    if |log| == 0 then 0
    else Finished(log[..|log| - 1])
         + (if log[|log| - 1].Completed? || log[|log| - 1].Exhausted? then 1 else 0)
  }

  function InUse(tx: TxSlots): nat {
    4 - CountTx(tx, EMPTY, 4)
  }

  predicate LedgerOk(s: Engine) {
    && s.credits <= ARQ_MAX_OUTSTANDING
    && s.credits == Ledger(s.log, s.config.initialRemoteCredits)
    && |s.submitted| == Finished(s.log) + InUse(s.tx)
    && s.nextId == (s.config.initialDatagramId + |s.submitted|) % 0x1_0000
  }

  predicate TxInv(s: Engine) {
    TxOk(s.config, s.tx, s.txPool) && LedgerOk(s)
  }

  predicate Inv(s: Engine) {
    TxInv(s) && RxOk(s)
  }

  // ---- which side an operation touched ----

  predicate IsRxEvent(e: Event) {
    e.EgressAsked? || e.Delivered? || (e.Sent? && e.frame.Ack?)
  }

  predicate Grew(a: Log, b: Log, rx: bool) {
    a <= b && forall k :: |a| <= k < |b| ==> IsRxEvent(b[k]) == rx
  }

  /** Only the receive side moved. */
  ghost predicate TxSame(s: Engine, t: Engine) {
    && t.config == s.config && t.callbacks == s.callbacks && t.tx == s.tx && t.txPool == s.txPool
    && t.credits == s.credits && t.nextId == s.nextId && t.probeArmed == s.probeArmed
    && t.probeDeadline == s.probeDeadline && t.submitted == s.submitted
    && Grew(s.log, t.log, true)
  }

  /** Only the transmit side moved. */
  ghost predicate RxSame(s: Engine, t: Engine) {
    && t.config == s.config && t.callbacks == s.callbacks && t.rx == s.rx && t.rxPool == s.rxPool
    && t.window == s.window && t.acks == s.acks
    && Grew(s.log, t.log, false)
  }

  lemma GrewTrans(a: Log, b: Log, c: Log, rx: bool)
    requires Grew(a, b, rx) && Grew(b, c, rx)
    ensures Grew(a, c, rx)
  {
    forall k | |a| <= k < |c| ensures IsRxEvent(c[k]) == rx {
      if k < |b| {
        assert c[k] == b[k];
      }
    }
  }

  lemma {:induction false} LedgerIgnoresRx(a: Log, b: Log, initial: byte)
    requires Grew(a, b, true)
    ensures Ledger(b, initial) == Ledger(a, initial) && Finished(b) == Finished(a)
    decreases |b|
  {
    if |a| < |b| {
      var c := b[..|b| - 1];
      assert IsRxEvent(b[|b| - 1]);
      assert forall k :: |a| <= k < |c| ==> c[k] == b[k];
      assert c[..|a|] == b[..|a|] == a;
      LedgerIgnoresRx(a, c, initial);
    } else {
      assert a == b;
    }
  }

  lemma NoteLedger(log: Log, e: Event, initial: byte)
    ensures Ledger(log + [e], initial) ==
            match e
            case AckSeen(ack) => ClampCredits(ack.receiverCredits)
            case Opened(_, probe) => Ledger(log, initial) - (if probe then 0 else 1)
            case _ => Ledger(log, initial)
    ensures Finished(log + [e]) == Finished(log) + (if e.Completed? || e.Exhausted? then 1 else 0)
  {
    assert (log + [e])[..|log|] == log;
  }

  lemma CountFour(tx: TxSlots, st: TxState)
    ensures CountTx(tx, st, 4) == (if tx[0].state == st then 1 else 0) + (if tx[1].state == st then 1 else 0)
                                  + (if tx[2].state == st then 1 else 0) + (if tx[3].state == st then 1 else 0)
  {
    assert CountTx(tx, st, 2) == (if tx[0].state == st then 1 else 0) + (if tx[1].state == st then 1 else 0);
  }

  /** Writing one slot moves the number in use by that slot's own change. */
  lemma InUseAfter(tx: TxSlots, i: nat, slot: TxSlot)
    requires i < 4
    ensures InUse(tx[i := slot]) == InUse(tx) - (if tx[i].state != EMPTY then 1 else 0)
                                    + (if slot.state != EMPTY then 1 else 0)
  {
    CountFour(tx, EMPTY);
    CountFour(tx[i := slot], EMPTY);
  }

  // ---- receive side ----

  lemma CurrentCreditsKeeps(s: Engine)
    ensures CurrentCredits(s).0 == s.(log := CurrentCredits(s).0.log)
    ensures Grew(s.log, CurrentCredits(s).0.log, true)
    ensures CurrentCredits(s).1 <= ARQ_MAX_OUTSTANDING
  {}

  lemma EnqueueAckKeeps(s: Engine, ack: AckFrame, ready: uint32)
    requires AcksOk(s.acks)
    ensures EnqueueAck(s, ack, ready) == s.(acks := EnqueueAck(s, ack, ready).acks)
    ensures AcksOk(EnqueueAck(s, ack, ready).acks)
  {}

  lemma SendPendingAckKeeps(s: Engine, now: uint32)
    requires AcksOk(s.acks)
    ensures var t := SendPendingAck(s, now).0;
            t == s.(acks := t.acks, log := t.log) && AcksOk(t.acks) && Grew(s.log, t.log, true)
  {}

  lemma OfferKeeps(s: Engine, i: nat)
    requires i < 4
    ensures Offer(s, i).0 == s.(log := Offer(s, i).0.log) && Grew(s.log, Offer(s, i).0.log, true)
  {}

  lemma ReleaseRxKeeps(s: Engine, i: nat)
    requires i < 4 && RxPoolOk(s.rx, s.rxPool) && s.rx[i].active
    ensures var t := ReleaseRxSlot(s, i);
            && RxPoolOk(t.rx, t.rxPool) && t.rxPool.storage == s.rxPool.storage
            && t == s.(rxPool := t.rxPool, rx := s.rx[i := EMPTY_RX])
            && Release(s.rxPool, s.rx[i].handle) == (t.rxPool, POOL_OK)
  {
    ReleaseExactly(s.rxPool, s.rx[i].handle);
    var t := ReleaseRxSlot(s, i);
    var h0 := s.rx[i].handle;
    assert RxHolds(s.rx[i], h0);
    assert RxOwns(s.rx, h0);
    hide PoolOk, RxSlotOk;
    forall h | 0 <= h < DATAGRAM_POOL_CAPACITY ensures RxOwns(t.rx, h) <==> h !in t.rxPool.free {
      assert RxOwns(s.rx, h) <==> h !in s.rxPool.free;
    }
  }

  /** Slot i is being worked on: it may be complete without waiting yet. */
  predicate MidData(s: Engine, i: nat) {
    && i < 4 && RxPoolOk(s.rx, s.rxPool) && IdsOk(s.window, s.rx, i) && AcksOk(s.acks)
    && s.rx[i].active && s.rx[i].reassembly.active
    && Find(s.window, s.rx[i].reassembly.datagramId).None?
    && forall j :: 0 <= j < 4 && j != i && s.rx[j].active ==>
         s.rx[j].reassembly.datagramId != s.rx[i].reassembly.datagramId
  }

  lemma MidDataOfOk(s: Engine, i: nat)
    requires RxOk(s) && i < 4 && s.rx[i].active
    ensures MidData(s, i)
  {
    hide WindowOk, RxPoolOk, AcksOk, Find;
  }

  lemma MidDataSettles(s: Engine, i: nat)
    requires MidData(s, i) && Settled(s.rx[i])
    ensures RxOk(s)
  {
    hide WindowOk, RxPoolOk, AcksOk, Find, Settled;
  }

  lemma TxSameTrans(s: Engine, t: Engine, u: Engine)
    requires TxSame(s, t) && TxSame(t, u)
    ensures TxSame(s, u)
  {
    GrewTrans(s.log, t.log, u.log, true);
    hide Grew;
  }

  lemma QueueFailureAckKeeps(s: Engine, id: uint16, bitmap: Bitmap, failure: FailureStatus, now: uint32)
    requires AcksOk(s.acks)
    ensures var t := QueueFailureAck(s, id, bitmap, failure, now);
            t == s.(acks := t.acks, log := t.log) && AcksOk(t.acks) && Grew(s.log, t.log, true)
  {
    CurrentCreditsKeeps(s);
    hide CurrentCredits, EnqueueAck;
    var (t, credits) := CurrentCredits(s);
    EnqueueAckKeeps(t, AckFrame(id, bitmap, credits, failure), AckDeadline(t, now));
  }

  lemma QueueRxAckKeeps(s: Engine, i: nat, failure: FailureStatus, now: uint32)
    requires AcksOk(s.acks) && i < 4
    ensures var t := QueueRxAck(s, i, failure, now);
            t == s.(acks := t.acks, log := t.log) && AcksOk(t.acks) && Grew(s.log, t.log, true)
  {
    CurrentCreditsKeeps(s);
    hide CurrentCredits, EnqueueAck;
    var r := s.rx[i].reassembly;
    var (t, credits) := CurrentCredits(s);
    EnqueueAckKeeps(s, AckFrame(r.datagramId, WithdrawnBitmap(r), 0, failure), AckDeadline(s, now));
    EnqueueAckKeeps(t, AckFrame(r.datagramId, r.receivedBitmap, credits, failure), AckDeadline(t, now));
  }

  /** Storing one id in the window makes no other id known. */
  lemma StoreAddsOnly(w: Window, id: uint16, ack: AckState, x: uint16)
    requires WindowOk(w) && x != id && Find(w, x).None?
    ensures WindowOk(Store(w, id, ack)) && Find(Store(w, id, ack), x).None?
  {
    hide Store, Find, WindowOk, NotBehind, FullWindow, Advance;
    StoreRefinesMap(w, id, ack, x);
  }

  lemma FinishDeliveryShape(s: Engine, i: nat, now: uint32, t: Engine)
    requires i < 4 && AcksOk(s.acks) && t == FinishDelivery(s, i, now)
    ensures exists ack ::
              && t.window == Store(s.window, s.rx[i].reassembly.datagramId, ack)
              && ack.failure == NONE && ack.fragmentBitmap == FragmentExpectedBitmap(s.rx[i].reassembly.fragmentCount)
    ensures TxSame(s, t) && AcksOk(t.acks)
    ensures t.rx == ReleaseRxSlot(s, i).rx && t.rxPool == ReleaseRxSlot(s, i).rxPool
  {
    var r := s.rx[i].reassembly;
    var bitmap := FragmentExpectedBitmap(r.fragmentCount);
    CurrentCreditsKeeps(s);
    var (p, stored) := CurrentCredits(s);
    var state := AckState(bitmap, stored, NONE);
    var u := p.(window := Store(p.window, r.datagramId, state));
    CurrentCreditsKeeps(u);
    var (v, credits) := CurrentCredits(u);
    hide CurrentCredits, EnqueueAck, Store;
    EnqueueAckKeeps(v, AckFrame(r.datagramId, bitmap, credits, NONE), AckDeadline(v, now));
    GrewTrans(s.log, p.log, v.log, true);
    assert t.window == Store(s.window, r.datagramId, state);
  }

  lemma FinishDeliveryIds(s: Engine, i: nat, t: Engine, ack: AckState)
    requires MidData(s, i)
    requires t.rx == s.rx[i := EMPTY_RX] && t.window == Store(s.window, s.rx[i].reassembly.datagramId, ack)
    ensures IdsOk(t.window, t.rx, 4)
  {
    var id := s.rx[i].reassembly.datagramId;
    StoreOk(s.window, id, ack);
    hide Settled, Find, WindowOk, Store, AcksOk, RxPoolOk;
    forall j | 0 <= j < 4 && t.rx[j].active
      ensures Settled(t.rx[j]) && Find(t.window, t.rx[j].reassembly.datagramId).None?
    {
      assert t.rx[j] == s.rx[j] && j != i;
      StoreAddsOnly(s.window, id, ack, t.rx[j].reassembly.datagramId);
    }
  }

  lemma FinishDeliveryKeeps(s: Engine, i: nat, now: uint32, t: Engine)
    requires MidData(s, i) && t == FinishDelivery(s, i, now)
    ensures RxOk(t) && TxSame(s, t)
  {
    FinishDeliveryShape(s, i, now, t);
    ReleaseRxKeeps(s, i);
    hide FinishDelivery, IdsOk, Store, AcksOk, RxPoolOk;
    var ack :| t.window == Store(s.window, s.rx[i].reassembly.datagramId, ack);
    FinishDeliveryIds(s, i, t, ack);
  }

  lemma StoreOk(w: Window, id: uint16, ack: AckState)
    requires WindowOk(w)
    ensures WindowOk(Store(w, id, ack))
  {
    hide Store, WindowOk, Find;
    StoreRefinesMap(w, id, ack, id);
  }

  /** A failed attempt moves only the log; a successful one leaves everything in order. */
  lemma TryCompleteKeeps(s: Engine, i: nat, now: uint32)
    requires MidData(s, i)
    ensures var (t, completed) := TryCompleteRxSlot(s, i, now);
            TxSame(s, t) && if completed then RxOk(t) else t == s.(log := t.log)
  {
    OfferKeeps(s, i);
    hide MidData, FinishDelivery;
    var (t, accepted) := Offer(s, i);
    if accepted {
      LogOnlyMidData(s, t, i);
      FinishDeliveryKeeps(t, i, now, FinishDelivery(t, i, now));
      hide Offer, ReassemblyIsComplete, RxOk;
      if ReassemblyIsComplete(s.rx[i].reassembly) {
        TxSameTrans(s, t, FinishDelivery(t, i, now));
      }
    }
  }

  lemma LogOnlyMidData(s: Engine, t: Engine, i: nat)
    requires MidData(s, i) && t == s.(log := t.log)
    ensures MidData(t, i)
  {
    hide WindowOk, Settled, Find, PoolOk, RxSlotOk;
  }

  lemma LogOnlyRxOk(s: Engine, t: Engine)
    requires RxOk(s) && t == s.(log := t.log)
    ensures RxOk(t)
  {
    hide WindowOk, Settled, Find, PoolOk, RxSlotOk;
  }

  lemma {:induction false} TryCompleteAllKeeps(s: Engine, i: nat, now: uint32)
    requires RxOk(s) && i <= 4
    ensures var t := TryCompleteRxSlots(s, i, now).0;
            TxSame(s, t) && RxOk(t)
    decreases 4 - i
  {
    hide RxOk, MidData, TryCompleteRxSlot;
    if i < 4 {
      if s.rx[i].active && s.rx[i].waiting {
        MidDataOfOk(s, i);
        TryCompleteKeeps(s, i, now);
        var (t, completed) := TryCompleteRxSlot(s, i, now);
        if !completed {
          LogOnlyRxOk(s, t);
          TryCompleteAllKeeps(t, i + 1, now);
          TxSameTrans(s, t, TryCompleteRxSlots(t, i + 1, now).0);
        }
      } else {
        TryCompleteAllKeeps(s, i + 1, now);
      }
    }
  }

  // ---- putting a fragment in ----

  lemma SpareHandle(rx: RxSlots, i: nat) returns (h: nat)
    requires i < 4 && !rx[i].active
    ensures h < DATAGRAM_POOL_CAPACITY && !RxOwns(rx, h)
  {
    h := if !RxOwns(rx, 0) then 0 else if !RxOwns(rx, 1) then 1 else if !RxOwns(rx, 2) then 2 else 3;
  }

  /** With a slot to spare there is always a buffer: the pool cannot be exhausted. */
  lemma RxPoolNotExhausted(s: Engine)
    requires RxPoolOk(s.rx, s.rxPool) && FirstInactive(s.rx, 0) < 4
    ensures Acquire(s.rxPool).1.Some?
  {
    AcquireThenRelease(s.rxPool);
    var h := SpareHandle(s.rx, FirstInactive(s.rx, 0));
    hide Acquire, PoolOk, RxSlotOk;
  }

  lemma AllocateOwnership(s: Engine, i: nat, slot: RxSlot, pool: Pool)
    requires RxPoolOk(s.rx, s.rxPool) && i < 4 && !s.rx[i].active && slot.active && RxSlotOk(slot)
    requires Acquire(s.rxPool) == (pool, Some(slot.handle))
    ensures RxPoolOk(s.rx[i := slot], pool)
  {
    AcquireThenRelease(s.rxPool);
    AcquireIndex(s.rxPool);
    var h0, rx := slot.handle, s.rx[i := slot];
    hide PoolOk, RxSlotOk, Acquire, Release;
    assert !RxOwns(s.rx, h0);
    forall h | 0 <= h < DATAGRAM_POOL_CAPACITY ensures RxOwns(rx, h) <==> h !in pool.free {
      assert RxOwns(s.rx, h) <==> h !in s.rxPool.free;
    }
    forall j | 0 <= j < 4 && j != i && rx[j].active ensures rx[j].handle != h0 {
      assert RxHolds(s.rx[j], rx[j].handle);
    }
  }

  lemma AllocateRxKeeps(s: Engine)
    requires RxOk(s)
    ensures var (t, i) := AllocateRxSlot(s);
            && (i == 4 <==> FirstInactive(s.rx, 0) == 4) && (i == 4 ==> t == s)
            && (i < 4 ==> RxPoolOk(t.rx, t.rxPool) && IdsOk(t.window, t.rx, i)
                          && t.rxPool.storage == s.rxPool.storage
                          && !s.rx[i].active && t.rx[i].active && !t.rx[i].waiting
                          && t.rx[i].reassembly == ResetReassembly(V3_MAX_DATAGRAM)
                          && t == s.(rx := s.rx[i := t.rx[i]], rxPool := t.rxPool))
  {
    hide RxPoolOk, WindowOk, Find, Settled, Acquire, AllocateRxSlot, Consistent, ReassemblyIsComplete, PoolOk, RxSlotOk;
    AllocateRxShape(s);
    if FirstInactive(s.rx, 0) < 4 {
      RxPoolNotExhausted(s);
      AcquireIndex(s.rxPool);
      var (t, i) := AllocateRxSlot(s);
      ResetSlotOk(t.rx[i].handle);
      AllocateOwnership(s, i, t.rx[i], t.rxPool);
    }
  }

  lemma AllocateRxShape(s: Engine)
    ensures var (t, i) := AllocateRxSlot(s);
            && (FirstInactive(s.rx, 0) == 4 ==> i == 4 && t == s)
            && (FirstInactive(s.rx, 0) < 4 && Acquire(s.rxPool).1.Some? ==>
                  && i == FirstInactive(s.rx, 0) && t.rxPool == Acquire(s.rxPool).0
                  && t.rx[i] == RxSlot(true, Acquire(s.rxPool).1.value, ResetReassembly(V3_MAX_DATAGRAM), false)
                  && t == s.(rx := s.rx[i := t.rx[i]], rxPool := t.rxPool))
  {
    hide Acquire;
  }

  lemma ResetSlotOk(handle: nat)
    requires handle < DATAGRAM_POOL_CAPACITY
    ensures RxSlotOk(RxSlot(true, handle, ResetReassembly(V3_MAX_DATAGRAM), false))
  {}

  lemma AcquireIndex(p: Pool)
    requires Acquire(p).1.Some?
    ensures var h := Acquire(p).1.value;
            h in p.free && h < DATAGRAM_POOL_CAPACITY && Acquire(p).0 == p.(free := p.free - {h}, used := p.used + 1)
  {}

  /** Slot i can take a fragment of datagram id: it is that datagram's slot, or a new one. */
  predicate ReadyFor(s: Engine, i: nat, id: uint16) {
    && i < 4 && RxPoolOk(s.rx, s.rxPool) && IdsOk(s.window, s.rx, i) && AcksOk(s.acks) && s.rx[i].active
    && (s.rx[i].reassembly == ResetReassembly(V3_MAX_DATAGRAM)
        || (Settled(s.rx[i]) && s.rx[i].reassembly.datagramId == id))
    && Find(s.window, id).None?
    && forall j :: 0 <= j < 4 && j != i && s.rx[j].active ==> s.rx[j].reassembly.datagramId != id
  }

  lemma WriteKeepsPool(p: Pool, h: nat, data: Bytes)
    requires PoolOk(p) && h < DATAGRAM_POOL_CAPACITY && |data| == V3_MAX_DATAGRAM
    ensures PoolOk(WriteBuffer(p, h, data)) && WriteBuffer(p, h, data) == p.(storage := p.storage[h := data])
    ensures |Buffer(p, h)| == V3_MAX_DATAGRAM
    ensures data == Buffer(p, h) ==> WriteBuffer(p, h, data) == p
  {}

  lemma UpdateReassembly(rx: RxSlots, pool: Pool, i: nat, r: Reassembly, data: Bytes)
    requires RxPoolOk(rx, pool) && i < 4 && rx[i].active && |data| == V3_MAX_DATAGRAM
    requires Consistent(r) && r.outputCapacity == V3_MAX_DATAGRAM
    requires rx[i].waiting ==> ReassemblyIsComplete(r)
    ensures RxPoolOk(rx[i := rx[i].(reassembly := r)], WriteBuffer(pool, rx[i].handle, data))
  {
    WriteKeepsPool(pool, rx[i].handle, data);
    var rx', pool' := rx[i := rx[i].(reassembly := r)], WriteBuffer(pool, rx[i].handle, data);
    hide PoolOk, Consistent, ReassemblyIsComplete;
    assert RxSlotOk(rx'[i]) && forall j :: 0 <= j < 4 && j != i ==> RxSlotOk(rx'[j]);
    hide RxSlotOk;
    forall h | 0 <= h < DATAGRAM_POOL_CAPACITY ensures RxOwns(rx', h) <==> h !in pool'.free {
      assert RxOwns(rx, h) <==> h !in pool.free;
    }
  }

  lemma IdsIgnoreHole(window: Window, rx: RxSlots, i: nat, slot: RxSlot)
    requires i < 4 && IdsOk(window, rx, i)
    ensures IdsOk(window, rx[i := slot], i)
  {
    hide WindowOk, Settled, Find;
  }

  lemma AcceptIntoKeeps(s: Engine, i: nat, h: DataHeader, payload: Bytes, u: Engine, result: FragmentResult)
    requires ReadyFor(s, i, h.datagramId) && ValidateDataHeader(h) && |payload| == h.payloadLen
    requires (u, result) == AcceptInto(s, i, h, payload)
    ensures MidData(u, i)
    ensures u == s.(rx := s.rx[i := u.rx[i]], rxPool := u.rxPool)
    ensures u.rx[i] == s.rx[i].(reassembly := u.rx[i].reassembly) && u.rx[i].reassembly.datagramId == h.datagramId
    ensures result == OK || result == DUPLICATE || (result == METADATA_MISMATCH && u == s && Settled(u.rx[i]))
  {
    var slot, buffer := s.rx[i], Buffer(s.rxPool, s.rx[i].handle);
    var a := AcceptFragment(slot.reassembly, buffer, h, payload);
    assert RxSlotOk(slot);
    WriteKeepsPool(s.rxPool, slot.handle, a.output);
    AcceptKeepsConsistent(slot.reassembly, buffer, h, payload, a);
    AcceptOutcome(slot.reassembly, buffer, h, payload, a);
    UpdateReassembly(s.rx, s.rxPool, i, a.state, a.output);
    IdsIgnoreHole(s.window, s.rx, i, slot.(reassembly := a.state));
    hide AcceptFragment, Fits, ReassemblyIsComplete, RxPoolOk, RxSlotOk, Find, AcksOk, IdsOk, ValidateDataHeader;
    hide WriteBuffer, Consistent, Settled;
    assert result == METADATA_MISMATCH ==> u.rx == s.rx && u.rxPool == s.rxPool;
  }

  /** A fragment with a valid header and its payload is taken, recognised, or in conflict. */
  lemma AcceptOutcome(r: Reassembly, output: Bytes, h: DataHeader, payload: Bytes, a: Acceptance)
    requires Consistent(r) && r.outputCapacity == V3_MAX_DATAGRAM == |output|
    requires ValidateDataHeader(h) && |payload| == h.payloadLen
    requires r == ResetReassembly(V3_MAX_DATAGRAM) || r.active
    requires a == AcceptFragment(r, output, h, payload)
    ensures a.state.active && a.state.datagramId == if r.active then r.datagramId else h.datagramId
    ensures a.result == OK || a.result == DUPLICATE || (a.result == METADATA_MISMATCH && r.active)
    ensures ReassemblyIsComplete(r) ==> ReassemblyIsComplete(a.state)
  {
    Geometry(h.datagramLength, h.fragmentIndex);
    if Fits(r, h, payload) && h.fragmentIndex !in r.receivedBitmap {
      AcceptNew(r, output, h, payload, a);
      CompleteExactlyWhenAllReceived(r);
      hide AcceptFragment, ExpectedFragmentCount, ExpectedFragmentPayloadLen, Consistent;
    } else {
      AcceptOther(r, output, h, payload, a);
      hide ExpectedFragmentCount, ExpectedFragmentPayloadLen, BytesOf;
    }
  }

  lemma AfterAcceptKeeps(s: Engine, i: nat, h: DataHeader, now: uint32)
    requires MidData(s, i)
    ensures var t := AfterAccept(s, i, h, now); RxOk(t) && TxSame(s, t)
  {
    if ReassemblyIsComplete(s.rx[i].reassembly) {
      TryCompleteKeeps(s, i, now);
      var (t, completed) := TryCompleteRxSlot(s, i, now);
      if !completed {
        var u := SetRx(t, i, t.rx[i].(waiting := true));
        MarkWaiting(s, i, t, u);
        QueueRxAckKeeps(u, i, CREDIT_WITHDRAWAL, now);
        RxOkCongruence(u, QueueRxAck(u, i, CREDIT_WITHDRAWAL, now));
        hide RxOk, TryCompleteRxSlot, QueueRxAck, MidData, ReassemblyIsComplete;
        GrewTrans(s.log, t.log, QueueRxAck(u, i, CREDIT_WITHDRAWAL, now).log, true);
      }
    } else {
      MidDataSettles(s, i);
      QueueRxAckKeeps(s, i, NONE, now);
      RxOkCongruence(s, QueueRxAck(s, i, NONE, now));
      hide RxOk, QueueRxAck, MidData, ReassemblyIsComplete;
    }
  }

  lemma RxOkCongruence(s: Engine, t: Engine)
    requires RxOk(s) && t == s.(acks := t.acks, log := t.log) && AcksOk(t.acks)
    ensures RxOk(t)
  {
    hide RxPoolOk, IdsOk, AcksOk;
  }

  lemma MarkWaiting(s: Engine, i: nat, t: Engine, u: Engine)
    requires MidData(s, i) && ReassemblyIsComplete(s.rx[i].reassembly) && t == s.(log := t.log)
    requires u == SetRx(t, i, t.rx[i].(waiting := true))
    ensures RxOk(u)
  {
    hide Find, WindowOk, AcksOk, ReassemblyIsComplete, Consistent, PoolOk;
    assert RxSlotOk(s.rx[i]);
    assert RxSlotOk(u.rx[i]) && forall j :: 0 <= j < 4 && j != i ==> RxSlotOk(u.rx[j]);
    hide RxSlotOk;
    forall h | 0 <= h < DATAGRAM_POOL_CAPACITY ensures RxOwns(u.rx, h) <==> h !in u.rxPool.free {
      assert RxOwns(s.rx, h) <==> h !in s.rxPool.free;
    }
  }

  lemma ReadyWhenFound(s: Engine, id: uint16)
    requires RxOk(s) && Find(s.window, id).None? && RxSlotFor(s.rx, id, 0) < 4
    ensures ReadyFor(s, RxSlotFor(s.rx, id, 0), id)
  {
    hide Find, WindowOk, AcksOk, RxPoolOk;
  }

  lemma ReadyWhenAllocated(s: Engine, id: uint16)
    requires RxOk(s) && Find(s.window, id).None? && RxSlotFor(s.rx, id, 0) == 4
    ensures var (t, i) := AllocateRxSlot(s);
            i < 4 ==> ReadyFor(t, i, id) && t == s.(rx := s.rx[i := t.rx[i]], rxPool := t.rxPool)
  {
    AllocateRxKeeps(s);
    hide Find, WindowOk, AcksOk, RxPoolOk, IdsOk, AllocateRxSlot;
  }

  lemma SlotForDataReady(s: Engine, id: uint16)
    requires RxOk(s) && Find(s.window, id).None?
    ensures var (t, i) := SlotForData(s, id);
            && (i < 4 ==> ReadyFor(t, i, id) && t == s.(rx := s.rx[i := t.rx[i]], rxPool := t.rxPool))
            && (i == 4 ==> t == s)
  {
    AllocateRxKeeps(s);
    hide RxOk, ReadyFor, AllocateRxSlot;
    if RxSlotFor(s.rx, id, 0) < 4 {
      ReadyWhenFound(s, id);
    } else {
      ReadyWhenAllocated(s, id);
    }
  }

  lemma DataInSlotKeeps(s: Engine, i: nat, h: DataHeader, payload: Bytes, now: uint32)
    requires ReadyFor(s, i, h.datagramId) && ValidateDataHeader(h) && |payload| == h.payloadLen
    ensures var t := DataInSlot(s, i, h, payload, now); RxOk(t) && TxSame(s, t)
  {
    var (u, result) := AcceptInto(s, i, h, payload);
    AcceptIntoKeeps(s, i, h, payload, u, result);
    hide ReadyFor, AcceptInto, ValidateDataHeader, Settled;
    if result == METADATA_MISMATCH {
      var bitmap := u.rx[i].reassembly.receivedBitmap;
      QueueFailureAckKeeps(u, h.datagramId, bitmap, MALFORMED_INPUT, now);
      MidDataSettles(u, i);
      RxOkCongruence(u, QueueFailureAck(u, h.datagramId, bitmap, MALFORMED_INPUT, now));
      hide QueueFailureAck, MidData, RxOk;
    } else {
      AfterAcceptKeeps(u, i, h, now);
      hide AfterAccept, MidData, RxOk;
    }
  }

  lemma AckAgainKeeps(s: Engine, id: uint16, known: AckState, now: uint32)
    requires RxOk(s)
    ensures var t := AckAgain(s, id, known, now); RxOk(t) && TxSame(s, t)
  {
    CurrentCreditsKeeps(s);
    var (t, credits) := CurrentCredits(s);
    var ack := AckFrame(id, known.fragmentBitmap, credits, known.failure);
    EnqueueAckKeeps(t, ack, AckDeadline(t, now));
    RxOkCongruence(s, EnqueueAck(t, ack, AckDeadline(t, now)));
    hide RxOk, EnqueueAck, CurrentCredits;
  }

  lemma HandleDataKeeps(s: Engine, h: DataHeader, payload: Bytes, now: uint32)
    requires RxOk(s) && ValidateDataHeader(h) && |payload| == h.payloadLen
    ensures var t := HandleData(s, h, payload, now); RxOk(t) && TxSame(s, t)
  {
    hide AckAgain, SlotForData, DataInSlot, ReadyFor, Find, QueueFailureAck, ValidateDataHeader;
    var id := h.datagramId;
    match Find(s.window, id)
    case Some(known) =>
      AckAgainKeeps(s, id, known, now);
    case None =>
      SlotForDataReady(s, id);
      var (t, i) := SlotForData(s, id);
      if i == 4 {
        QueueFailureAckKeeps(s, id, {}, ALLOCATION_FAILURE, now);
        RxOkCongruence(s, QueueFailureAck(s, id, {}, ALLOCATION_FAILURE, now));
        hide RxOk;
      } else {
        DataInSlotKeeps(t, i, h, payload, now);
        hide RxOk;
      }
  }

  // ---- transmit side: one slot at a time ----

  lemma UpdateBuffers(tx: TxSlots, pool: Pool, i: nat, slot: TxSlot)
    requires TxBuffersOk(tx, pool) && i < 4 && tx[i].state != EMPTY
    requires slot.state != EMPTY && slot.handle == tx[i].handle
    ensures TxBuffersOk(tx[i := slot], pool)
  {
    hide PoolOk;
    forall h | 0 <= h < DATAGRAM_POOL_CAPACITY ensures TxOwns(tx[i := slot], h) <==> h !in pool.free {
      assert TxOwns(tx, h) <==> h !in pool.free;
    }
  }

  lemma UpdateTx(c: Config, tx: TxSlots, pool: Pool, i: nat, slot: TxSlot)
    requires TxOk(c, tx, pool) && i < 4 && tx[i].state != EMPTY
    requires TxSlotOk(c, slot) && slot.state != EMPTY && slot.handle == tx[i].handle
    requires slot.state == OPEN ==> forall j :: 0 <= j < 4 && j != i ==> tx[j].state != OPEN
    ensures TxOk(c, tx[i := slot], pool)
  {
    UpdateBuffers(tx, pool, i, slot);
    hide TxBuffersOk, TxSlotOk;
  }

  lemma ReleaseBuffers(tx: TxSlots, pool: Pool, i: nat)
    requires i < 4 && TxBuffersOk(tx, pool) && tx[i].state != EMPTY
    ensures TxBuffersOk(tx[i := EMPTY_TX], Release(pool, tx[i].handle).0) && Release(pool, tx[i].handle).1 == POOL_OK
    ensures Release(pool, tx[i].handle).0.storage == pool.storage && tx[i].handle < DATAGRAM_POOL_CAPACITY
  {
    ReleaseExactly(pool, tx[i].handle);
    var tx', free, h0 := tx[i := EMPTY_TX], Release(pool, tx[i].handle).0.free, tx[i].handle;
    assert Holds(tx[i], h0);
    assert TxOwns(tx, h0);
    assert free == pool.free + {h0};
    hide PoolOk, Release;
    forall h | 0 <= h < DATAGRAM_POOL_CAPACITY ensures TxOwns(tx', h) <==> h !in free {
      assert TxOwns(tx, h) <==> h !in pool.free;
    }
  }

  lemma ReleaseTx(c: Config, tx: TxSlots, pool: Pool, i: nat)
    requires i < 4 && TxOk(c, tx, pool) && tx[i].state != EMPTY
    ensures TxOk(c, tx[i := EMPTY_TX], Release(pool, tx[i].handle).0)
    ensures Release(pool, tx[i].handle).0.storage == pool.storage && tx[i].handle < DATAGRAM_POOL_CAPACITY
  {
    ReleaseBuffers(tx, pool, i);
    assert TxSlotOk(c, EMPTY_TX);
    hide TxBuffersOk, TxSlotOk, Release;
  }

  lemma ClearTxKeeps(s: Engine, i: nat)
    requires i < 4 && TxOk(s.config, s.tx, s.txPool) && s.tx[i].state != EMPTY
    ensures var t := ClearTxSlot(s, i);
            && TxOk(t.config, t.tx, t.txPool) && t.txPool.storage == s.txPool.storage
            && t == s.(tx := s.tx[i := EMPTY_TX], txPool := t.txPool)
  {
    ReleaseTx(s.config, s.tx, s.txPool, i);
    hide TxOk, Release;
  }

  lemma LogTxEvent(s: Engine, t: Engine, e: Event)
    requires t == s.(log := s.log + [e], tx := t.tx, txPool := t.txPool, credits := t.credits,
                     probeArmed := t.probeArmed, probeDeadline := t.probeDeadline)
    requires !IsRxEvent(e) && LedgerOk(s)
    requires TxOk(t.config, t.tx, t.txPool)
    requires InUse(t.tx) == InUse(s.tx) - (if e.Completed? || e.Exhausted? then 1 else 0)
    requires t.credits == match e
                          case AckSeen(ack) => ClampCredits(ack.receiverCredits)
                          case Opened(_, probe) => s.credits - (if probe then 0 else 1)
                          case _ => s.credits
    ensures TxInv(t) && RxSame(s, t)
  {
    NoteLedger(s.log, e, s.config.initialRemoteCredits);
    hide TxOk, Ledger, Finished, InUse, CountTx;
  }

  lemma RetireKeeps(s: Engine, i: nat, e: Event)
    requires i < 4 && TxInv(s) && s.tx[i].state != EMPTY
    requires e == Exhausted(s.tx[i].datagramId) || e == Completed(s.tx[i].datagramId)
    ensures var t := ClearTxSlot(Note(s, e), i); TxInv(t) && RxSame(s, t)
  {
    hide LedgerOk, TxOk;
    ClearTxKeeps(Note(s, e), i);
    InUseAfter(s.tx, i, EMPTY_TX);
    hide ClearTxSlot, InUse;
    LogTxEvent(s, ClearTxSlot(Note(s, e), i), e);
  }

  lemma ProgressTx(c: Config, tx: TxSlots, pool: Pool, i: nat, slot: TxSlot)
    requires i < 4 && TxOk(c, tx, pool) && tx[i].state == OPEN
    requires slot.state == OPEN && slot.handle == tx[i].handle && TxSlotOk(c, slot)
    ensures TxOk(c, tx[i := slot], pool) && InUse(tx[i := slot]) == InUse(tx)
  {
    hide TxSlotOk, TxBuffersOk, CountTx;
    UpdateTx(c, tx, pool, i, slot);
    InUseAfter(tx, i, slot);
  }

  /** Changing an OPEN slot's progress touches nothing else. */
  lemma ProgressKeeps(s: Engine, i: nat, slot: TxSlot)
    requires i < 4 && TxInv(s) && s.tx[i].state == OPEN
    requires slot.state == OPEN && slot.handle == s.tx[i].handle && TxSlotOk(s.config, slot)
    ensures TxInv(SetTx(s, i, slot)) && RxSame(s, SetTx(s, i, slot))
  {
    ProgressTx(s.config, s.tx, s.txPool, i, slot);
    hide TxOk, InUse, Ledger, Finished, TxSlotOk;
  }

  lemma SendDataFragmentKeeps(s: Engine, i: nat, k: nat)
    requires i < 4 && TxInv(s)
    ensures var t := SendDataFragment(s, i, k).0;
            t == s.(log := t.log) && TxInv(t) && RxSame(s, t)
  {
    hide FragmentFrame, TxOk, LedgerOk, InUse, Encode;
    match FragmentFrame(s, i, k)
    case None =>
    case Some(f) =>
      if s.callbacks.send.Some? {
        LogTxEvent(s, Transmit(s, f).0, Sent(f, Transmit(s, f).1));
      }
  }

  lemma SendNextKeeps(s: Engine, i: nat, now: uint32)
    requires i < 4 && TxInv(s) && s.tx[i].state == OPEN
    requires s.tx[i].nextFragment < s.tx[i].fragmentCount ==> s.tx[i].nextFragment in s.tx[i].round
    ensures var (t, sent) := SendNext(s, i, now);
            && TxInv(t) && RxSame(s, t)
            && (!sent ==> t == s.(log := t.log))
  {
    var k := s.tx[i].nextFragment;
    if k < s.tx[i].fragmentCount {
      SendDataFragmentKeeps(s, i, k);
      var (t, sent) := SendDataFragment(s, i, k);
      if sent {
        AfterFragmentOk(s.config, s.tx[i], k, RetryDeadline(t, now));
        hide TxInv, SendDataFragment, TxSlotOk;
        ProgressKeeps(t, i, AfterFragment(t.tx[i], k, RetryDeadline(t, now)));
        GrewTrans(s.log, t.log, t.log, false);
      }
    }
  }

  lemma AfterFragmentOk(c: Config, slot: TxSlot, k: byte, deadline: uint32)
    requires TxSlotOk(c, slot) && slot.state == OPEN && k == slot.nextFragment && k in slot.round && k < 0xFF
    requires k < slot.fragmentCount
    ensures TxSlotOk(c, AfterFragment(slot, k, deadline)) && AfterFragment(slot, k, deadline).state == OPEN
  {
    hide ExpectedFragmentCount;
  }

  lemma RxSameTrans(s: Engine, t: Engine, u: Engine)
    requires RxSame(s, t) && RxSame(t, u)
    ensures RxSame(s, u)
  {
    GrewTrans(s.log, t.log, u.log, false);
    hide Grew;
  }

  lemma TxInvSlot(s: Engine, i: nat)
    requires TxInv(s) && i < 4
    ensures TxSlotOk(s.config, s.tx[i])
  {}

  lemma NewRoundOk(c: Config, slot: TxSlot)
    requires TxSlotOk(c, slot) && slot.state == OPEN && slot.attempts < c.maxAttempts
    ensures TxSlotOk(c, NewRound(slot)) && NewRound(slot).state == OPEN && NewRound(slot).handle == slot.handle
    ensures NewRound(slot).fragmentCount == slot.fragmentCount
    ensures NewRound(slot).nextFragment < slot.fragmentCount ==> NewRound(slot).nextFragment in NewRound(slot).round
  {
    hide ExpectedFragmentCount;
  }

  lemma {:induction false} TrySendRetransmitKeeps(s: Engine, i: nat, now: uint32)
    requires i <= 4 && TxInv(s)
    ensures var t := TrySendRetransmit(s, i, now).0; TxInv(t) && RxSame(s, t)
    decreases 4 - i
  {
    hide TxInv, TxSlotOk, SendNext, NewRound, RxSame;
    if i < 4 {
      if !RetransmitDue(s, i, now) {
        TrySendRetransmitKeeps(s, i + 1, now);
      } else if s.tx[i].attempts >= s.config.maxAttempts {
        RetireKeeps(s, i, Exhausted(s.tx[i].datagramId));
      } else {
        TxInvSlot(s, i);
        NewRoundOk(s.config, s.tx[i]);
        ProgressKeeps(s, i, NewRound(s.tx[i]));
        var u := SetTx(s, i, NewRound(s.tx[i]));
        assert u.tx[i].state == OPEN && u.tx[i] == NewRound(s.tx[i]);
        assert u.tx[i].fragmentCount == s.tx[i].fragmentCount;
        SendNextKeeps(u, i, now);
        var (t, sent) := SendNext(u, i, now);
        RxSameTrans(s, u, t);
        if !sent {
          TrySendRetransmitKeeps(t, i + 1, now);
          RxSameTrans(s, t, TrySendRetransmit(t, i + 1, now).0);
        }
      }
    } else {
      RxSameRefl(s);
    }
  }

  lemma ScannedOk(c: Config, slot: TxSlot)
    requires TxSlotOk(c, slot) && slot.state == OPEN && slot.round != {}
    ensures var n := Scan(slot, slot.nextFragment);
            n < slot.fragmentCount && n in slot.round && TxSlotOk(c, slot.(nextFragment := n))
  {
    var k :| k in slot.round;
    hide ExpectedFragmentCount;
    assert k < slot.fragmentCount;
  }

  lemma {:induction false} TrySendOpenDataKeeps(s: Engine, i: nat, now: uint32)
    requires i <= 4 && TxInv(s)
    ensures var t := TrySendOpenData(s, i, now).0; TxInv(t) && RxSame(s, t)
    decreases 4 - i
  {
    hide TxInv, TxSlotOk, SendNext, RxSame, Scan;
    if i < 4 {
      if s.tx[i].state != OPEN || s.tx[i].round == {} {
        TrySendOpenDataKeeps(s, i + 1, now);
      } else {
        TxInvSlot(s, i);
        ScannedOk(s.config, s.tx[i]);
        var slot := s.tx[i].(nextFragment := Scan(s.tx[i], s.tx[i].nextFragment));
        var u := SetTx(s, i, slot);
        ProgressKeeps(s, i, slot);
        SendNextKeeps(u, i, now);
        var (t, sent) := SendNext(u, i, now);
        RxSameTrans(s, u, t);
        if !sent {
          TrySendOpenDataKeeps(t, i + 1, now);
          RxSameTrans(s, t, TrySendOpenData(t, i + 1, now).0);
        }
      }
    } else {
      RxSameRefl(s);
    }
  }

  lemma RxSameRefl(s: Engine)
    ensures RxSame(s, s)
  {}

  /** Arming, disarming or leaving the stall probe. */
  lemma ProbeKeeps(s: Engine, t: Engine)
    requires TxInv(s) && t == s.(probeArmed := t.probeArmed, probeDeadline := t.probeDeadline)
    ensures TxInv(t) && RxSame(s, t)
  {
    hide TxOk, Ledger, Finished, InUse;
  }

  lemma OpenedOk(c: Config, slot: TxSlot, deadline: uint32)
    requires TxSlotOk(c, slot) && slot.state == QUEUED
    ensures var started := slot.(state := OPEN, acked := {}, round := FullBitmap(slot), nextFragment := 0, attempts := 1,
                                 retryDeadline := deadline);
            TxSlotOk(c, started)
  {}

  lemma OpenSlotKeeps(s: Engine, i: nat, now: uint32)
    requires i < 4 && TxInv(s) && s.tx[i].state == QUEUED && ActiveCount(s) == 0
    ensures var t := OpenSlot(s, i, now); TxInv(t) && RxSame(s, t)
  {
    var t := OpenSlot(s, i, now);
    TxInvSlot(s, i);
    OpenedOk(s.config, s.tx[i], RetryDeadline(s, now));
    hide TxSlotOk;
    UpdateTx(s.config, s.tx, s.txPool, i, t.tx[i]);
    InUseAfter(s.tx, i, t.tx[i]);
    hide TxOk, InUse, CountTx;
    LogTxEvent(s, t, Opened(s.tx[i].datagramId, s.credits == 0));
  }

  lemma OpenNextKeeps(s: Engine, now: uint32)
    requires TxInv(s) && ActiveCount(s) == 0
    ensures var t := OpenNext(s, now).0; TxInv(t) && RxSame(s, t)
  {
    RxSameRefl(s);
    hide TxInv, RxSame, OpenSlot, TrySendOpenData;
    var i := FirstTx(s.tx, QUEUED, 0);
    if i < 4 {
      OpenSlotKeeps(s, i, now);
      var u := OpenSlot(s, i, now);
      TrySendOpenDataKeeps(u, 0, now);
      RxSameTrans(s, u, TrySendOpenData(u, 0, now).0);
    }
  }

  lemma TryOpenQueuedKeeps(s: Engine, now: uint32)
    requires TxInv(s)
    ensures var t := TryOpenQueued(s, now).0; TxInv(t) && RxSame(s, t)
  {
    hide TxInv, RxSame, OpenNext, CountTx, Wrap32, Reached;
    if ActiveCount(s) != 0 {
      RxSameRefl(s);
    } else if s.credits == 0 && QueuedCount(s) == 0 {
      ProbeKeeps(s, s.(probeArmed := false));
    } else if s.credits == 0 && !s.probeArmed {
      ProbeKeeps(s, s.(probeArmed := true, probeDeadline := Wrap32(now + s.config.creditStallTimeout)));
    } else if s.credits == 0 && !Reached(now, s.probeDeadline) {
      RxSameRefl(s);
    } else {
      var t := s.(probeArmed := false);
      ProbeKeeps(s, t);
      OpenNextKeeps(t, now);
      RxSameTrans(s, t, OpenNext(t, now).0);
    }
  }

  lemma TxTickKeeps(s: Engine, now: uint32)
    requires TxInv(s)
    ensures TxInv(TxTick(s, now)) && RxSame(s, TxTick(s, now))
  {
    hide TxInv, RxSame, TrySendRetransmit, TrySendOpenData, TryOpenQueued;
    TrySendRetransmitKeeps(s, 0, now);
    var (t, _) := TrySendRetransmit(s, 0, now);
    TrySendOpenDataKeeps(t, 0, now);
    var (u, _) := TrySendOpenData(t, 0, now);
    TryOpenQueuedKeeps(u, now);
    RxSameTrans(s, t, u);
    RxSameTrans(s, u, TryOpenQueued(u, now).0);
  }

  // ---- acknowledgements and submissions ----

  lemma AckSeenKeeps(s: Engine, ack: AckFrame)
    requires TxInv(s)
    ensures TxInv(NoteAck(s, ack)) && RxSame(s, NoteAck(s, ack))
  {
    hide TxOk, InUse;
    LogTxEvent(s, NoteAck(s, ack), AckSeen(ack));
  }

  lemma AckedOk(c: Config, slot: TxSlot, bits: Bitmap, deadline: uint32)
    requires TxSlotOk(c, slot) && slot.state == OPEN
    ensures TxSlotOk(c, slot.(acked := bits))
    ensures TxSlotOk(c, slot.(acked := bits, round := {}, nextFragment := 0, attempts := 1, retryDeadline := deadline))
  {}

  lemma AckMergeKeeps(t: Engine, i: nat, ack: AckFrame, now: uint32)
    requires i < 4 && TxInv(t) && t.tx[i].state == OPEN && ack.failure != CREDIT_WITHDRAWAL
    ensures TxInv(AckSlot(t, i, ack, now)) && RxSame(t, AckSlot(t, i, ack, now))
  {
    var slot := t.tx[i].(acked := t.tx[i].acked + ack.fragmentBitmap);
    TxInvSlot(t, i);
    AckedOk(t.config, t.tx[i], slot.acked, 0);
    hide TxInv, RxSame, TxSlotOk;
    var u := SetTx(t, i, slot);
    ProgressKeeps(t, i, slot);
    hide ClearTxSlot, FullBitmap;
    RetireKeeps(u, i, Completed(u.tx[i].datagramId));
    RxSameTrans(t, u, CompleteTxSlot(u, i));
  }

  lemma AckSlotKeeps(t: Engine, i: nat, ack: AckFrame, now: uint32)
    requires i < 4 && TxInv(t) && t.tx[i].state == OPEN
    ensures TxInv(AckSlot(t, i, ack, now)) && RxSame(t, AckSlot(t, i, ack, now))
  {
    if ack.failure == CREDIT_WITHDRAWAL {
      TxInvSlot(t, i);
      var deadline, slot := Wrap32(now + t.config.creditStallTimeout), t.tx[i];
      AckedOk(t.config, slot, slot.acked * ack.fragmentBitmap, deadline);
      hide TxInv, RxSame, TxSlotOk, Wrap32;
      ProgressKeeps(t, i, slot.(acked := slot.acked * ack.fragmentBitmap, round := {}, nextFragment := 0, attempts := 1,
                                retryDeadline := deadline));
    } else {
      AckMergeKeeps(t, i, ack, now);
    }
  }

  lemma HandleAckKeeps(s: Engine, ack: AckFrame, now: uint32)
    requires TxInv(s)
    ensures var t := HandleAck(s, ack, now); TxInv(t) && RxSame(s, t)
  {
    AckSeenKeeps(s, ack);
    hide TxInv, RxSame, AckSlot, NoteAck;
    var t := NoteAck(s, ack);
    var i := OpenSlotFor(t.tx, ack.datagramId, 0);
    if i < 4 {
      AckSlotKeeps(t, i, ack, now);
      RxSameTrans(s, t, AckSlot(t, i, ack, now));
    }
  }

  lemma SpareTxHandle(tx: TxSlots, i: nat) returns (h: nat)
    requires i < 4 && tx[i].state == EMPTY
    ensures h < DATAGRAM_POOL_CAPACITY && !TxOwns(tx, h)
  {
    h := if !TxOwns(tx, 0) then 0 else if !TxOwns(tx, 1) then 1 else if !TxOwns(tx, 2) then 2 else 3;
  }

  lemma TxPoolNotExhausted(s: Engine)
    requires TxInv(s) && FirstTx(s.tx, EMPTY, 0) < 4
    ensures Acquire(s.txPool).1.Some?
  {
    AcquireThenRelease(s.txPool);
    var h := SpareTxHandle(s.tx, FirstTx(s.tx, EMPTY, 0));
    hide Acquire, PoolOk, TxSlotOk, LedgerOk;
  }

  lemma AllocateTxBuffers(tx: TxSlots, pool: Pool, i: nat, slot: TxSlot, acquired: Pool)
    requires TxBuffersOk(tx, pool) && i < 4 && tx[i].state == EMPTY && slot.state == QUEUED
    requires Acquire(pool) == (acquired, Some(slot.handle))
    ensures TxBuffersOk(tx[i := slot], acquired)
  {
    AcquireThenRelease(pool);
    AcquireIndex(pool);
    var h0, tx' := slot.handle, tx[i := slot];
    hide PoolOk, Acquire, Release;
    assert !TxOwns(tx, h0);
    forall h | 0 <= h < DATAGRAM_POOL_CAPACITY ensures TxOwns(tx', h) <==> h !in acquired.free {
      assert TxOwns(tx, h) <==> h !in pool.free;
    }
    forall j | 0 <= j < 4 && j != i && tx'[j].state != EMPTY ensures tx'[j].handle != h0 {
      assert Holds(tx[j], tx'[j].handle);
    }
  }

  lemma WriteTx(tx: TxSlots, pool: Pool, h: nat, data: Bytes)
    requires TxBuffersOk(tx, pool) && h < DATAGRAM_POOL_CAPACITY && |data| == V3_MAX_DATAGRAM
    ensures TxBuffersOk(tx, WriteBuffer(pool, h, data))
  {
    WriteKeepsPool(pool, h, data);
    hide PoolOk;
  }

  lemma AllocateTx(c: Config, tx: TxSlots, pool: Pool, i: nat, slot: TxSlot, acquired: Pool, data: Bytes)
    requires TxOk(c, tx, pool) && i < 4 && tx[i].state == EMPTY && slot.state == QUEUED && TxSlotOk(c, slot)
    requires Acquire(pool) == (acquired, Some(slot.handle)) && |data| == V3_MAX_DATAGRAM
    ensures TxOk(c, tx[i := slot], WriteBuffer(acquired, slot.handle, data))
  {
    hide TxBuffersOk, TxSlotOk, Acquire, WriteBuffer, PoolOk;
    AllocateTxBuffers(tx, pool, i, slot, acquired);
    AcquireIndex(pool);
    WriteTx(tx[i := slot], acquired, slot.handle, data);
    assert TxSlotsOk(c, tx[i := slot]);
  }

  lemma QueuedOk(c: Config, handle: nat, length: uint16, id: uint16)
    requires 0 < length <= V3_MAX_DATAGRAM
    ensures TxSlotOk(c, TxSlot(QUEUED, handle, length, id, ExpectedFragmentCount(length), {}, {}, 0, 0, 0))
  {}

  /** A submission is accepted exactly when its length is legal and a slot is empty. */
  lemma SubmitKeeps(s: Engine, data: Option<Bytes>)
    requires TxInv(s)
    ensures var (t, r) := Submit(s, data);
            && TxInv(t) && RxSame(s, t) && r != ALLOCATION_FAILED
            && (r == ARQ_OK <==> data.Some? && 0 < |data.value| <= V3_MAX_DATAGRAM && FirstTx(s.tx, EMPTY, 0) < 4)
            && (r != ARQ_OK ==> t == s)
            && (r == ARQ_OK ==> t.submitted == s.submitted + [data.value])
  {
    RxSameRefl(s);
    var i := FirstTx(s.tx, EMPTY, 0);
    if data.Some? && 0 < |data.value| <= V3_MAX_DATAGRAM && i < 4 {
      TxPoolNotExhausted(s);
      var (pool, handle) := Acquire(s.txPool);
      PlaceKeeps(s, i, pool, handle.value, data.value);
    }
    hide TxInv, RxSame, Acquire, Place;
  }

  lemma PlaceTx(s: Engine, i: nat, pool: Pool, h: nat, d: Bytes)
    requires TxInv(s) && 0 < |d| <= V3_MAX_DATAGRAM && i < 4 && s.tx[i].state == EMPTY
    requires Acquire(s.txPool) == (pool, Some(h))
    ensures var t := Place(s, i, pool, h, d); TxOk(t.config, t.tx, t.txPool) && InUse(t.tx) == InUse(s.tx) + 1
  {
    AcquireIndex(s.txPool);
    assert |Buffer(pool, h)| == V3_MAX_DATAGRAM;
    QueuedOk(s.config, h, |d|, s.nextId);
    var slot := QueuedSlot(s, h, d);
    hide Acquire, PoolOk, Filled, Buffer, LedgerOk;
    AllocateTx(s.config, s.tx, s.txPool, i, slot, pool, Filled(Buffer(pool, h), d));
    InUseAfter(s.tx, i, slot);
    assert slot.state == QUEUED;
    hide TxOk, InUse, WriteBuffer, TxSlotOk, QueuedSlot;
  }

  lemma NextIdStep(a: nat)
    ensures (a % 0x1_0000 + 1) % 0x1_0000 == (a + 1) % 0x1_0000
  {}

  lemma PlaceLedger(s: Engine, t: Engine, d: Bytes)
    requires LedgerOk(s) && InUse(t.tx) == InUse(s.tx) + 1
    requires t.log == s.log + [Submitted(s.nextId, d)] && t.submitted == s.submitted + [d]
    requires t.config == s.config && t.credits == s.credits && t.nextId == (s.nextId + 1) % 0x1_0000
    ensures LedgerOk(t)
  {
    NoteLedger(s.log, Submitted(s.nextId, d), s.config.initialRemoteCredits);
    NextIdStep(s.config.initialDatagramId + |s.submitted|);
    hide InUse, Ledger, Finished;
  }

  lemma PlaceRx(s: Engine, i: nat, pool: Pool, h: nat, d: Bytes)
    requires i < 4 && |d| <= V3_MAX_DATAGRAM
    ensures RxSame(s, Place(s, i, pool, h, d))
  {
    hide WriteBuffer, QueuedSlot, Filled;
  }

  lemma PlaceKeeps(s: Engine, i: nat, pool: Pool, h: nat, d: Bytes)
    requires TxInv(s) && 0 < |d| <= V3_MAX_DATAGRAM && i < 4 && s.tx[i].state == EMPTY
    requires Acquire(s.txPool) == (pool, Some(h))
    ensures var t := Place(s, i, pool, h, d);
            TxInv(t) && RxSame(s, t) && t.submitted == s.submitted + [d]
  {
    hide TxOk, InUse, WriteBuffer, QueuedSlot, Filled, Acquire, LedgerOk, RxSame;
    PlaceTx(s, i, pool, h, d);
    PlaceRx(s, i, pool, h, d);
    PlaceLedger(s, Place(s, i, pool, h, d), d);
  }

  // ---- the entry points and whole runs ----

  lemma RxSideStep(s: Engine, t: Engine)
    requires Inv(s) && TxSame(s, t) && RxOk(t)
    ensures Inv(t)
  {
    hide TxOk, RxOk, InUse, Ledger, Finished, Grew;
    LedgerIgnoresRx(s.log, t.log, s.config.initialRemoteCredits);
    assert LedgerOk(t);
  }

  lemma TxSideStep(s: Engine, t: Engine)
    requires Inv(s) && RxSame(s, t) && TxInv(t)
    ensures Inv(t)
  {
    hide TxInv, RxPoolOk, IdsOk, AcksOk;
  }

  lemma AllEmptyTx(c: Config, tx: TxSlots, pool: Pool)
    requires forall i :: 0 <= i < 4 ==> tx[i] == EMPTY_TX
    requires PoolOk(pool) && pool.invalidReleases == 0
    requires forall h :: 0 <= h < DATAGRAM_POOL_CAPACITY ==> h in pool.free
    ensures TxOk(c, tx, pool) && InUse(tx) == 0
  {
    CountFour(tx, EMPTY);
    hide PoolOk;
  }

  lemma AllEmptyRx(window: Window, rx: RxSlots, pool: Pool)
    requires forall i :: 0 <= i < 4 ==> rx[i] == EMPTY_RX
    requires PoolOk(pool) && pool.invalidReleases == 0
    requires forall h :: 0 <= h < DATAGRAM_POOL_CAPACITY ==> h in pool.free
    requires WindowOk(window)
    ensures RxPoolOk(rx, pool) && IdsOk(window, rx, 4)
  {
    hide PoolOk, WindowOk;
  }

  lemma ResetInv(config: Config, callbacks: Callbacks)
    ensures Inv(Reset(config, callbacks))
  {
    FreshPoolOk();
    EmptyWindowOk();
    hide PoolOk, WindowOk, FreshPool, EmptyWindow, EmptyStorage, EmptyEntries;
    AllEmptyTx(config, NO_TX_SLOTS, FreshPool());
    AllEmptyRx(EmptyWindow(), NO_RX_SLOTS, FreshPool());
    hide TxOk, RxPoolOk, IdsOk, InUse;
    assert Ledger([], config.initialRemoteCredits) == ClampCredits(config.initialRemoteCredits);
    assert Finished([]) == 0;
  }

  lemma EmptyWindowOk()
    ensures WindowOk(EmptyWindow())
  {
    NoneValid(EmptyEntries());
  }

  lemma {:induction false} NoneValid(entries: seq<Entry>)
    requires forall i :: 0 <= i < |entries| ==> !entries[i].valid
    ensures CountValid(entries) == 0
  {
    if |entries| > 0 {
      NoneValid(entries[..|entries| - 1]);
    }
  }

  lemma SendPendingAckStep(s: Engine, now: uint32)
    requires Inv(s)
    ensures Inv(SendPendingAck(s, now).0)
  {
    SendPendingAckKeeps(s, now);
    var t := SendPendingAck(s, now).0;
    hide SendPendingAck;
    RxOkCongruence(s, t);
    RxSideStep(s, t);
  }

  lemma OnTickKeepsInv(s: Engine, now: uint32)
    requires Inv(s)
    ensures Inv(OnTick(s, now))
  {
    hide Inv, TryCompleteRxSlots, SendPendingAck, TxTick, RxOk, TxInv, TxSame, RxSame;
    var (t, completed) := TryCompleteRxSlots(s, 0, now);
    assert Inv(t) by {
      assert RxOk(s) by { InvParts(s); }
      TryCompleteAllKeeps(s, 0, now);
      RxSideStep(s, t);
    }
    SendPendingAckStep(t, now);
    var (u, acknowledged) := SendPendingAck(t, now);
    if !completed && !acknowledged {
      InvParts(u);
      TxTickKeeps(u, now);
      TxSideStep(u, TxTick(u, now));
    }
  }

  lemma InvParts(s: Engine)
    requires Inv(s)
    ensures RxOk(s) && TxInv(s)
  {}

  lemma OnFrameKeepsInv(s: Engine, f: Frame, now: uint32)
    requires Inv(s) && Buildable(f)
    ensures Inv(OnFrame(s, f, now))
  {
    InvParts(s);
    hide Inv, HandleData, HandleAck, RxOk, TxInv, TxSame, RxSame, ValidateDataHeader;
    match f
    case DataFrame(h, payload) =>
      HandleDataKeeps(s, h, payload, now);
      RxSideStep(s, HandleData(s, h, payload, now));
    case Ack(ack) =>
      HandleAckKeeps(s, ack, now);
      TxSideStep(s, HandleAck(s, ack, now));
    case ControlFrame(_) =>
    case MgmtFrame(_) =>
  }

  lemma DecodedIsBuildable(p: Packet)
    requires Decode(p).Success?
    ensures Buildable(Decode(p).value)
  {
    DecodeExactly(p, Decode(p).value);
    hide Decode, Buildable, Logical;
  }

  lemma SubmitStep(s: Engine, data: Option<Bytes>)
    requires Inv(s)
    ensures Inv(Submit(s, data).0)
  {
    InvParts(s);
    hide Inv, Submit, RxOk, TxInv, RxSame;
    SubmitKeeps(s, data);
    TxSideStep(s, Submit(s, data).0);
  }

  lemma OnRxPacketStep(s: Engine, packet: Packet, now: uint32)
    requires Inv(s)
    ensures Inv(OnRxPacket(s, packet, now))
  {
    hide Inv, OnFrame, Decode, Buildable;
    if Decode(packet).Success? {
      DecodedIsBuildable(packet);
      OnFrameKeepsInv(s, Decode(packet).value, now);
    }
  }

  lemma ApplyKeepsInv(s: Engine, input: Input)
    requires Inv(s)
    ensures Inv(Apply(s, input))
  {
    hide Inv, OnTick, OnRxPacket, SendPendingAck, Submit;
    match input
    case SubmitInput(data) => SubmitStep(s, data);
    case PacketInput(packet, now) => OnRxPacketStep(s, packet, now);
    case TickInput(now) => OnTickKeepsInv(s, now);
    case FlushInput(now) => SendPendingAckStep(s, now);
  }

  /** Every call of a run keeps the invariant. */
  lemma {:induction false} InvAt(states: seq<Engine>, inputs: seq<Input>, k: nat)
    requires Trace(states, inputs) && k <= |inputs| && Inv(states[0])
    ensures Inv(states[k])
  {
    hide Inv, Apply;
    if k > 0 {
      InvAt(states, inputs, k - 1);
      assert StepAt(states, inputs, k - 1);
      ApplyKeepsInv(states[k - 1], inputs[k - 1]);
    }
  }

  lemma IsResetInv(s: Engine)
    requires IsReset(s)
    ensures Inv(s)
  {
    hide Inv, Reset;
    var config, callbacks :| s == Reset(config, callbacks);
    ResetInv(config, callbacks);
  }

  /** The invariant holds in every reachable state. */
  lemma ReachableInv(s: Engine)
    requires Reachable(s)
    ensures Inv(s)
  {
    hide Inv, StepAt, IsReset, Reachable;
    var states, inputs := ReachableTrace(s);
    IsResetInv(states[0]);
    InvAt(states, inputs, |inputs|);
  }
}
