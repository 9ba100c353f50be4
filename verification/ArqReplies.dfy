/** What a receiver answers, when, and in what order: the acknowledgement every DATA packet leads to, the
    queue it waits in, and the datagrams that wait for the egress. */
module ArqReplies {
  import opened Words
  import opened FramingV3
  import opened FragmentV3
  import opened DatagramPool
  import opened DuplicateWindow
  import opened ArqState
  import opened ArqInvariant
  import opened AtMostOnce
  import opened Redelivery
  import ArqConservation
  import ArqLink
  import ArqTiming
  import ArqReceiver

  // ---- the queue ----

  /** The acknowledgement joined the queue: in the place of the one for its id, else at the end, else,
      with sixteen others pending, not at all. */
  predicate Enqueued(a: seq<PendingAck>, b: seq<PendingAck>, ack: AckFrame, ready: uint32) {
    if ArqTiming.HasPending(a, ack.datagramId) then
      |b| == |a| && forall j :: 0 <= j < |a| ==>
        b[j] == if a[j].ack.datagramId == ack.datagramId then PendingAck(ack, ready) else a[j]
    else if |a| == 16 then b == a
    else b == a + [PendingAck(ack, ready)]
  }

  lemma EnqueuedBy(s: Engine, ack: AckFrame, ready: uint32)
    requires AcksOk(s.acks)
    ensures Enqueued(s.acks, EnqueueAck(s, ack, ready).acks, ack, ready)
    ensures EnqueueAck(s, ack, ready) == s.(acks := EnqueueAck(s, ack, ready).acks)
  {}

  // ---- the credits an acknowledgement grants ----

  function FreeSlots(rx: RxSlots): nat {
    |set i | 0 <= i < 4 && !rx[i].active|
  }

  /** What the egress last said it has room for; four when there is nobody to ask. */
  function LastAnswer(s: Engine): byte {
    if s.callbacks.egress.None? then ARQ_MAX_RX_DATAGRAMS
    else if |s.log| > 0 && s.log[|s.log| - 1].EgressAsked? then s.log[|s.log| - 1].capacity
    else 0
  }

  /** The most that free slots, the egress and the limit of four all allow. */
  function Allowance(free: nat, answer: byte): (credits: byte)
    ensures credits <= free && credits <= answer && credits <= 4
    ensures credits == free || credits == answer || credits == 4
  {
    if free <= answer && free <= 4 then free else if answer <= 4 then answer else 4
  }

  /** There is a buffer for every free slot, so buffers never lower the credits. */
  lemma CreditsGiven(s: Engine)
    requires RxPoolOk(s.rx, s.rxPool)
    ensures var (t, credits) := CurrentCredits(s);
            t == s.(log := t.log) && credits == Allowance(FreeSlots(s.rx), LastAnswer(t))
  {
    ArqConservation.RxBuffersCounted(s.rx, s.rxPool);
    ArqTiming.CountInactiveIs(s.rx, 4);
    hide RxPoolOk, CountInactive;
  }

  // ---- each reply ----

  lemma AgainAnswers(s: Engine, id: uint16, known: AckState, now: uint32)
    requires RxPoolOk(s.rx, s.rxPool) && AcksOk(s.acks)
    ensures var t := AckAgain(s, id, known, now);
            && t == s.(acks := t.acks, log := t.log)
            && Enqueued(s.acks, t.acks,
                        AckFrame(id, known.fragmentBitmap, Allowance(FreeSlots(t.rx), LastAnswer(t)), known.failure),
                        AckDeadline(s, now))
  {
    CreditsGiven(s);
    hide CurrentCredits, RxPoolOk, AcksOk, Allowance, FreeSlots, EnqueueAck, Enqueued;
    var (t, credits) := CurrentCredits(s);
    EnqueuedBy(t, AckFrame(id, known.fragmentBitmap, credits, known.failure), AckDeadline(t, now));
  }

  lemma RefusalAnswers(s: Engine, id: uint16, bitmap: Bitmap, failure: FailureStatus, now: uint32)
    requires RxPoolOk(s.rx, s.rxPool) && AcksOk(s.acks)
    ensures var t := QueueFailureAck(s, id, bitmap, failure, now);
            && t == s.(acks := t.acks, log := t.log)
            && Enqueued(s.acks, t.acks, AckFrame(id, bitmap, Allowance(FreeSlots(t.rx), LastAnswer(t)), failure),
                        AckDeadline(s, now))
  {
    CreditsGiven(s);
    hide CurrentCredits, RxPoolOk, AcksOk, Allowance, FreeSlots, EnqueueAck, Enqueued;
    var (t, credits) := CurrentCredits(s);
    EnqueuedBy(t, AckFrame(id, bitmap, credits, failure), AckDeadline(t, now));
  }

  lemma ProgressAnswers(s: Engine, i: nat, now: uint32)
    requires RxPoolOk(s.rx, s.rxPool) && AcksOk(s.acks) && i < 4
    ensures var t, r := QueueRxAck(s, i, NONE, now), s.rx[i].reassembly;
            && t == s.(acks := t.acks, log := t.log)
            && Enqueued(s.acks, t.acks,
                        AckFrame(r.datagramId, r.receivedBitmap, Allowance(FreeSlots(t.rx), LastAnswer(t)), NONE),
                        AckDeadline(s, now))
  {
    CreditsGiven(s);
    hide CurrentCredits, RxPoolOk, AcksOk, Allowance, FreeSlots, EnqueueAck, Enqueued;
    var (t, credits) := CurrentCredits(s);
    var r := s.rx[i].reassembly;
    EnqueuedBy(t, AckFrame(r.datagramId, r.receivedBitmap, credits, NONE), AckDeadline(t, now));
  }

  /** A withdrawal leaves out fragment 0, and only that, and grants nothing. */
  lemma WithdrawalAnswers(s: Engine, i: nat, now: uint32)
    requires AcksOk(s.acks) && i < 4 && Consistent(s.rx[i].reassembly) && s.rx[i].reassembly.active
    requires ReassemblyIsComplete(s.rx[i].reassembly)
    ensures var t, r := QueueRxAck(s, i, CREDIT_WITHDRAWAL, now), s.rx[i].reassembly;
            && t == s.(acks := t.acks)
            && Enqueued(s.acks, t.acks, AckFrame(r.datagramId, r.receivedBitmap - {0}, 0, CREDIT_WITHDRAWAL),
                        AckDeadline(s, now))
  {
    var r := s.rx[i].reassembly;
    CompleteExactlyWhenAllReceived(r);
    Geometry(r.datagramLength, 0);
    assert 0 in FragmentExpectedBitmap(r.fragmentCount);
    hide AcksOk, Consistent, ReassemblyIsComplete, EnqueueAck, Enqueued;
    EnqueuedBy(s, AckFrame(r.datagramId, WithdrawnBitmap(r), 0, CREDIT_WITHDRAWAL), AckDeadline(s, now));
  }

  /** The final acknowledgement lists every fragment; the delivered datagram's own slot is not yet free
      when its credits are counted. */
  lemma FinishAnswers(s: Engine, i: nat, now: uint32)
    requires RxPoolOk(s.rx, s.rxPool) && AcksOk(s.acks) && i < 4 && s.rx[i].active
    ensures var t, r := FinishDelivery(s, i, now), s.rx[i].reassembly;
            && t.rx == s.rx[i := EMPTY_RX] && FreeSlots(t.rx) > 0 && t.callbacks == s.callbacks
            && Enqueued(s.acks, t.acks,
                        AckFrame(r.datagramId, FragmentExpectedBitmap(r.fragmentCount),
                                 Allowance(FreeSlots(t.rx) - 1, LastAnswer(t)), NONE),
                        AckDeadline(s, now))
  {
    hide CurrentCredits, RxPoolOk, AcksOk, Allowance, EnqueueAck, Enqueued, Store, Release, FragmentExpectedBitmap;
    var r := s.rx[i].reassembly;
    var bitmap := FragmentExpectedBitmap(r.fragmentCount);
    CreditsGiven(s);
    var (p, stored) := CurrentCredits(s);
    var u := p.(window := Store(p.window, r.datagramId, AckState(bitmap, stored, NONE)));
    CreditsGiven(u);
    OneMoreFree(s.rx, i);
    hide FreeSlots;
    var (v, credits) := CurrentCredits(u);
    EnqueuedBy(v, AckFrame(r.datagramId, bitmap, credits, NONE), AckDeadline(v, now));
  }

  lemma OneMoreFree(rx: RxSlots, i: nat)
    requires i < 4 && rx[i].active
    ensures FreeSlots(rx[i := EMPTY_RX]) == FreeSlots(rx) + 1
  {
    var freed: RxSlots := rx[i := EMPTY_RX];
    var before, after := set j | 0 <= j < 4 && !rx[j].active, set j | 0 <= j < 4 && !freed[j].active;
    assert after == before + {i};
  }

  // ---- what a fragment is answered with ----

  /** The engine's whole answer to a DATA packet. A datagram delivered before is acknowledged again as the
      window recorded it. With no slot for a new one, none of it is. A delivery is acknowledged with
      every fragment. In a slot, a packet that contradicts it is refused and what is held is listed; a
      datagram the egress would not take is withdrawn; otherwise what is held is listed at the end of a
      round, and only then. */
  ghost predicate Answers(s: Engine, h: DataHeader, now: uint32, t: Engine) {
    var id, ready := h.datagramId, Wrap32(now + s.config.ackTurnaround);
    if Find(s.window, id).Some? then
      var known := Find(s.window, id).value;
      t.rx == s.rx && AcceptedIds(t.log) == AcceptedIds(s.log)
      && Enqueued(s.acks, t.acks,
                  AckFrame(id, known.fragmentBitmap, Allowance(FreeSlots(t.rx), LastAnswer(t)), known.failure), ready)
    else if RxSlotFor(s.rx, id, 0) == 4 && FreeSlots(s.rx) == 0 then
      t.rx == s.rx && AcceptedIds(t.log) == AcceptedIds(s.log)
      && Enqueued(s.acks, t.acks, AckFrame(id, {}, 0, ALLOCATION_FAILURE), ready)
    else if AcceptedIds(t.log) != AcceptedIds(s.log) then
      FreeSlots(t.rx) > 0
      && Enqueued(s.acks, t.acks,
                  AckFrame(id, FragmentExpectedBitmap(h.fragmentCount),
                           Allowance(FreeSlots(t.rx) - 1, LastAnswer(t)), NONE), ready)
    else
      var i := RxSlotFor(t.rx, id, 0);
      i < 4 && InSlot(s, h, t, t.rx[i], ready)
  }

  ghost predicate InSlot(s: Engine, h: DataHeader, t: Engine, slot: RxSlot, ready: uint32) {
    var held, credits := slot.reassembly.receivedBitmap, Allowance(FreeSlots(t.rx), LastAnswer(t));
    if !MetadataMatches(slot.reassembly, h) then
      t.rx == s.rx && Enqueued(s.acks, t.acks, AckFrame(h.datagramId, held, credits, MALFORMED_INPUT), ready)
    else if slot.waiting then
      Enqueued(s.acks, t.acks, AckFrame(h.datagramId, held - {0}, 0, CREDIT_WITHDRAWAL), ready)
    else if h.flags % 2 == V3_DATA_FLAG_ROUND_END then
      Enqueued(s.acks, t.acks, AckFrame(h.datagramId, held, credits, NONE), ready)
    else t.acks == s.acks
  }

  lemma NoneFree(rx: RxSlots)
    ensures FreeSlots(rx) == 0 <==> FirstInactive(rx, 0) == 4
  {
    var free := set i | 0 <= i < 4 && !rx[i].active;
    if FirstInactive(rx, 0) < 4 {
      assert FirstInactive(rx, 0) in free;
    }
  }

  /** Slot i is the one its id is found in. */
  lemma OwnSlot(s: Engine, i: nat)
    requires MidData(s, i)
    ensures i < 4 && RxSlotFor(s.rx, s.rx[i].reassembly.datagramId, 0) == i
    ensures RxPoolOk(s.rx, s.rxPool) && AcksOk(s.acks) && s.rx[i].active && s.rx[i].reassembly.active
    ensures Consistent(s.rx[i].reassembly) && (s.rx[i].waiting ==> ReassemblyIsComplete(s.rx[i].reassembly))
  {
    assert RxSlotOk(s.rx[i]);
    hide RxPoolOk, AcksOk, IdsOk, Find, Consistent, ReassemblyIsComplete;
  }

  lemma AfterAcceptAnswers(s: Engine, u: Engine, i: nat, h: DataHeader, now: uint32)
    requires MidData(u, i) && MetadataMatches(u.rx[i].reassembly, h)
    requires u.acks == s.acks && u.log == s.log && u.config == s.config
    ensures var t, ready := AfterAccept(u, i, h, now), Wrap32(now + s.config.ackTurnaround);
            if AcceptedIds(t.log) != AcceptedIds(s.log) then
              FreeSlots(t.rx) > 0
              && Enqueued(s.acks, t.acks,
                          AckFrame(h.datagramId, FragmentExpectedBitmap(h.fragmentCount),
                                   Allowance(FreeSlots(t.rx) - 1, LastAnswer(t)), NONE), ready)
            else RxSlotFor(t.rx, h.datagramId, 0) == i && InSlot(s, h, t, t.rx[i], ready)
                 && MetadataMatches(t.rx[i].reassembly, h)
  {
    hide MidData, Enqueued, Allowance, FreeSlots, LastAnswer, AcceptedIds, ReassemblyIsComplete, FinishDelivery,
         QueueRxAck;
    hide Offer, Consistent, RxPoolOk, AcksOk, RxSlotFor, FragmentExpectedBitmap;
    OwnSlot(u, i);
    if ReassemblyIsComplete(u.rx[i].reassembly) {
      OfferAccepts(u, i);
      var (v, accepted) := Offer(u, i);
      if accepted {
        FinishAccepts(v, i, now);
        FinishAnswers(v, i, now);
      } else {
        assert AcceptedIds(v.log) == AcceptedIds(s.log);
        var w := SetRx(v, i, v.rx[i].(waiting := true));
        WithdrawalAnswers(w, i, now);
        SameFound(u.rx, i, w.rx[i], h.datagramId);
      }
    } else {
      ProgressAnswers(u, i, now);
      QueueQuiet(u, i, NONE, now);
    }
  }

  lemma SameFound(rx: RxSlots, i: nat, slot: RxSlot, id: uint16)
    requires i < 4 && slot == rx[i].(waiting := slot.waiting)
    ensures RxSlotFor(rx[i := slot], id, 0) == RxSlotFor(rx, id, 0)
  {}

  /** What goes into a slot leaves it with the packet's own metadata, unless the two contradict. */
  lemma IntoSlot(s: Engine, i: nat, h: DataHeader, payload: Bytes)
    requires ReadyFor(s, i, h.datagramId) && ValidateDataHeader(h) && |payload| == h.payloadLen
    ensures var (u, result) := AcceptInto(s, i, h, payload);
            && MidData(u, i) && u == s.(rx := s.rx[i := u.rx[i]], rxPool := u.rxPool)
            && u.rx[i].reassembly.datagramId == h.datagramId
            && if result == OK || result == DUPLICATE then MetadataMatches(u.rx[i].reassembly, h)
               else result == METADATA_MISMATCH && u == s && !MetadataMatches(u.rx[i].reassembly, h)
  {
    var (u, result) := AcceptInto(s, i, h, payload);
    AcceptIntoKeeps(s, i, h, payload, u, result);
    assert RxSlotOk(s.rx[i]) && RxPoolOk(s.rx, s.rxPool);
    BufferLength(s.rx, s.rxPool, i);
    var r, buffer := s.rx[i].reassembly, Buffer(s.rxPool, s.rx[i].handle);
    var a := AcceptFragment(r, buffer, h, payload);
    AcceptKeepsConsistent(r, buffer, h, payload, a);
    hide AcceptFragment, ValidateDataHeader, RxPoolOk, IdsOk, AcksOk, Find, Consistent, MidData, Settled, WriteBuffer;
    hide ReassemblyIsComplete;
    assert Fits(r, h, payload) ==> result == OK || result == DUPLICATE;
    if result == DUPLICATE {
      assert h.fragmentIndex in r.receivedBitmap;
      ActiveWhenHolding(r);
    }
  }

  lemma BufferLength(rx: RxSlots, pool: Pool, i: nat)
    requires RxPoolOk(rx, pool) && i < 4 && rx[i].active
    ensures |Buffer(pool, rx[i].handle)| == V3_MAX_DATAGRAM
  {
    assert RxSlotOk(rx[i]);
  }

  lemma ActiveWhenHolding(r: Reassembly)
    requires Consistent(r) && r.receivedBitmap != {}
    ensures r.active
  {}

  lemma DataAnswers(s: Engine, h: DataHeader, payload: Bytes, now: uint32)
    requires RxOk(s) && ValidateDataHeader(h) && |payload| == h.payloadLen
    ensures Answers(s, h, now, HandleData(s, h, payload, now))
  {
    hide RxOk, ReadyFor, MidData, AckAgain, SlotForData, DataInSlot, Find, QueueFailureAck, ValidateDataHeader;
    hide Enqueued, Allowance, FreeSlots, LastAnswer, AcceptedIds, InSlot, RxSlotFor;
    RxOkParts(s);
    NoneFree(s.rx);
    match Find(s.window, h.datagramId)
    case Some(known) =>
      AgainAnswers(s, h.datagramId, known, now);
      AgainQuiet(s, h.datagramId, known, now);
    case None =>
      SlotForDataReady(s, h.datagramId);
      NoSlotWhen(s, h.datagramId);
      var (t, i) := SlotForData(s, h.datagramId);
      if i == 4 {
        RefusalAnswers(s, h.datagramId, {}, ALLOCATION_FAILURE, now);
        RefusalQuiet(s, h.datagramId, {}, ALLOCATION_FAILURE, now);
        NothingAllowed(LastAnswer(QueueFailureAck(s, h.datagramId, {}, ALLOCATION_FAILURE, now)));
      } else {
        SlotAnswers(s, t, i, h, payload, now);
      }
  }

  lemma RxOkParts(s: Engine)
    requires RxOk(s)
    ensures RxPoolOk(s.rx, s.rxPool) && AcksOk(s.acks)
  {
    hide RxPoolOk, IdsOk, AcksOk;
  }

  lemma NothingAllowed(answer: byte)
    ensures Allowance(0, answer) == 0
  {}

  lemma NoSlotWhen(s: Engine, id: uint16)
    requires RxOk(s)
    ensures SlotForData(s, id).1 == 4 <==> RxSlotFor(s.rx, id, 0) == 4 && FirstInactive(s.rx, 0) == 4
  {
    AllocateRxKeeps(s);
    hide RxOk, AllocateRxSlot;
  }

  lemma SlotAnswers(s: Engine, t: Engine, i: nat, h: DataHeader, payload: Bytes, now: uint32)
    requires ReadyFor(t, i, h.datagramId) && ValidateDataHeader(h) && |payload| == h.payloadLen
    requires t == s.(rx := s.rx[i := t.rx[i]], rxPool := t.rxPool)
    requires (t, i) == SlotForData(s, h.datagramId) && i < 4
    ensures var v, ready := DataInSlot(t, i, h, payload, now), Wrap32(now + s.config.ackTurnaround);
            if AcceptedIds(v.log) != AcceptedIds(s.log) then
              FreeSlots(v.rx) > 0
              && Enqueued(s.acks, v.acks,
                          AckFrame(h.datagramId, FragmentExpectedBitmap(h.fragmentCount),
                                   Allowance(FreeSlots(v.rx) - 1, LastAnswer(v)), NONE), ready)
            else RxSlotFor(v.rx, h.datagramId, 0) < 4
                 && InSlot(s, h, v, v.rx[RxSlotFor(v.rx, h.datagramId, 0)], ready)
  {
    hide ReadyFor, MidData, SlotForData, AcceptInto, QueueFailureAck, ValidateDataHeader, Enqueued, Allowance,
         FreeSlots;
    hide LastAnswer, AcceptedIds, RxSlotFor, AfterAccept, RxPoolOk, AcksOk, Consistent;
    IntoSlot(t, i, h, payload);
    var (u, result) := AcceptInto(t, i, h, payload);
    OwnSlot(u, i);
    if result == METADATA_MISMATCH {
      RefusalAnswers(u, h.datagramId, u.rx[i].reassembly.receivedBitmap, MALFORMED_INPUT, now);
      RefusalQuiet(u, h.datagramId, u.rx[i].reassembly.receivedBitmap, MALFORMED_INPUT, now);
      ConflictIsOld(s, t, i, h);
    } else {
      AfterAcceptAnswers(s, u, i, h, now);
    }
  }

  /** A fresh slot contradicts nothing. */
  lemma ConflictIsOld(s: Engine, t: Engine, i: nat, h: DataHeader)
    requires (t, i) == SlotForData(s, h.datagramId) && i < 4 && t.rx[i].reassembly.active
    ensures t.rx == s.rx
  {
    AllocateRxShape(s);
    hide Acquire, FirstInactive;
  }

  /** In every reachable state, whatever the packet and the callbacks, a DATA packet is answered so. */
  lemma DataIsAnswered(s: Engine, p: Packet, h: DataHeader, payload: Bytes, now: uint32, t: Engine)
    requires Reachable(s) && Leads(s, PacketInput(p, now), t) && Decode(p) == Success(DataFrame(h, payload))
    ensures Answers(s, h, now, t)
  {
    hide *;
    ReachableInv(s);
    InvParts(s);
    LeadsIs(s, PacketInput(p, now), t);
    DecodedIsBuildable(p);
    PacketIsData(s, p, h, payload, now);
    BuildableData(h, payload);
    DataAnswers(s, h, payload, now);
  }

  lemma BuildableData(h: DataHeader, payload: Bytes)
    requires Buildable(DataFrame(h, payload))
    ensures ValidateDataHeader(h) && |payload| == h.payloadLen
  {}

  // ---- datagrams that wait for the egress ----

  /** Between the two logs the egress was asked and offered datagrams, and nothing else happened. */
  predicate OnlyAsked(a: Log, b: Log) {
    a <= b && forall k :: |a| <= k < |b| ==> b[k].EgressAsked? || b[k].Delivered?
  }

  lemma AskedNothing(a: Log)
    ensures OnlyAsked(a, a)
  {}

  lemma AskedTrans(a: Log, b: Log, c: Log)
    requires OnlyAsked(a, b) && OnlyAsked(b, c)
    ensures OnlyAsked(a, c)
  {
    forall k | |a| <= k < |c| ensures c[k].EgressAsked? || c[k].Delivered? {
      if k < |b| {
        assert c[k] == b[k];
      }
    }
  }

  /** The egress took the datagram of slot j: it is recorded with its bytes, the slot and no other is emptied,
      the window stores it as completely received, and it is acknowledged in full. */
  ghost predicate Delivers(s: Engine, t: Engine, j: nat, now: uint32) {
    && j < 4 && s.rx[j].active && t.rx == s.rx[j := EMPTY_RX] && FreeSlots(t.rx) > 0
    && var r := s.rx[j].reassembly;
       var full := FragmentExpectedBitmap(r.fragmentCount);
       && AcceptedIds(t.log) == AcceptedIds(s.log) + [r.datagramId]
       && s.log <= t.log && Delivered(r.datagramId, OutputOf(s, j), true) in t.log[|s.log|..]
       && (exists credits :: t.window == Store(s.window, r.datagramId, AckState(full, credits, NONE)))
       && Enqueued(s.acks, t.acks,
                   AckFrame(r.datagramId, full, Allowance(FreeSlots(t.rx) - 1, LastAnswer(t)), NONE),
                   Wrap32(now + s.config.ackTurnaround))
  }

  lemma OfferLogs(s: Engine, i: nat)
    requires i < 4
    ensures var (t, accepted) := Offer(s, i);
            && t == s.(log := t.log) && OnlyAsked(s.log, t.log)
            && (accepted ==> Delivered(s.rx[i].reassembly.datagramId, OutputOf(s, i), true) in t.log[|s.log|..])
  {
    hide OutputOf;
    var t := AskEgress(s, 1).0;
    ArqReceiver.OutputIgnoresLog(s, t, i);
    var (u, accepted) := Offer(s, i);
    if accepted {
      assert u.log[|s.log|..][|t.log| - |s.log|] == u.log[|t.log|];
    }
  }

  lemma CreditsLog(s: Engine)
    ensures CurrentCredits(s).0 == s.(log := CurrentCredits(s).0.log)
    ensures OnlyAsked(s.log, CurrentCredits(s).0.log)
  {}

  lemma FinishLogs(s: Engine, i: nat, now: uint32)
    requires i < 4
    ensures var t, r := FinishDelivery(s, i, now), s.rx[i].reassembly;
            && OnlyAsked(s.log, t.log) && t.config == s.config && t.callbacks == s.callbacks
            && exists credits ::
                 t.window == Store(s.window, r.datagramId,
                                   AckState(FragmentExpectedBitmap(r.fragmentCount), credits, NONE))
  {
    var r := s.rx[i].reassembly;
    CreditsLog(s);
    var (p, stored) := CurrentCredits(s);
    var u := p.(window := Store(p.window, r.datagramId, AckState(FragmentExpectedBitmap(r.fragmentCount), stored,
        NONE)));
    CreditsLog(u);
    var v := CurrentCredits(u).0;
    AskedTrans(s.log, p.log, v.log);
    hide CurrentCredits, OnlyAsked, Store, Release;
  }

  lemma CompletingDelivers(s: Engine, i: nat, now: uint32)
    requires MidData(s, i) && ReassemblyIsComplete(s.rx[i].reassembly)
    ensures var (t, completed) := TryCompleteRxSlot(s, i, now);
            && OnlyAsked(s.log, t.log) && completed == Offer(s, i).1
            && if completed then Delivers(s, t, i, now)
               else t == s.(log := t.log) && AcceptedIds(t.log) == AcceptedIds(s.log)
  {
    hide MidData, RxPoolOk, AcksOk, Consistent, Offer, FinishDelivery, OnlyAsked, AcceptedIds, Enqueued, Allowance;
    hide FreeSlots, LastAnswer, OutputOf, Store, ReassemblyIsComplete, FragmentExpectedBitmap;
    OwnSlot(s, i);
    OfferAccepts(s, i);
    OfferLogs(s, i);
    var (v, accepted) := Offer(s, i);
    if accepted {
      FinishAccepts(v, i, now);
      FinishAnswers(v, i, now);
      FinishLogs(v, i, now);
      var t := FinishDelivery(v, i, now);
      AskedTrans(s.log, v.log, t.log);
      LaterIn(s.log, v.log, t.log, Delivered(s.rx[i].reassembly.datagramId, OutputOf(s, i), true));
    }
  }

  lemma LaterIn(a: Log, b: Log, c: Log, e: Event)
    requires OnlyAsked(a, b) && OnlyAsked(b, c) && (e in b[|a|..] || e in c[|b|..])
    ensures a <= c && e in c[|a|..]
  {
    if e in b[|a|..] {
      var k :| 0 <= k < |b| - |a| && b[|a|..][k] == e;
      assert c[|a|..][k] == c[|a| + k] == b[|a| + k];
    } else {
      var k :| 0 <= k < |c| - |b| && c[|b|..][k] == e;
      assert c[|a|..][|b| - |a| + k] == c[|b| + k];
    }
  }

  /** Offers are made to waiting slots only, lowest first, and end with the first that is taken. */
  lemma {:induction false} WaitingDelivers(s: Engine, i: nat, now: uint32)
    requires RxOk(s) && i <= 4
    ensures var (t, completed) := TryCompleteRxSlots(s, i, now);
            && OnlyAsked(s.log, t.log)
            && if completed then exists j :: i <= j < 4 && s.rx[j].waiting && Delivers(s, t, j, now)
               else t == s.(log := t.log) && AcceptedIds(t.log) == AcceptedIds(s.log)
    decreases 4 - i
  {
    hide RxOk, MidData, TryCompleteRxSlot, OnlyAsked, AcceptedIds, Delivers;
    AskedNothing(s.log);
    if i < 4 {
      if s.rx[i].active && s.rx[i].waiting {
        MidDataOfOk(s, i);
        OwnSlot(s, i);
        CompletingDelivers(s, i, now);
        var (t, completed) := TryCompleteRxSlot(s, i, now);
        if !completed {
          LogOnlyRxOk(s, t);
          WaitingDelivers(t, i + 1, now);
          var (u, later) := TryCompleteRxSlots(t, i + 1, now);
          AskedTrans(s.log, t.log, u.log);
          if later {
            var j :| i + 1 <= j < 4 && t.rx[j].waiting && Delivers(t, u, j, now);
            DeliversAfter(s, t, u, j, now);
          }
        }
      } else {
        WaitingDelivers(s, i + 1, now);
      }
    }
  }

  lemma DeliversAfter(s: Engine, t: Engine, u: Engine, j: nat, now: uint32)
    requires t == s.(log := t.log) && AcceptedIds(t.log) == AcceptedIds(s.log) && OnlyAsked(s.log, t.log)
    requires OnlyAsked(t.log, u.log) && Delivers(t, u, j, now)
    ensures Delivers(s, u, j, now)
  {
    hide OutputOf, AcceptedIds, Enqueued, Allowance, FreeSlots, LastAnswer, Store, FragmentExpectedBitmap, OnlyAsked,
         Wrap32;
    ArqReceiver.OutputIgnoresLog(s, t, j);
    LaterIn(s.log, t.log, u.log, Delivered(s.rx[j].reassembly.datagramId, OutputOf(s, j), true));
  }

  // ---- the queue goes out in order ----

  /** The head of queue q is offered to the radio exactly when it is due, leaves exactly when it is taken,
      and the rest keep their order. */
  ghost predicate HeadOffered(q: seq<PendingAck>, before: Log, send: Option<(Log, Packet) -> bool>, now: uint32,
                              rest: seq<PendingAck>, after: Log) {
    if |q| == 0 || send.None? || !Reached(now, q[0].readyDeadline) then rest == q && after == before
    else
      var taken := send.value(before, Encode(Ack(q[0].ack)));
      after == before + [Sent(Ack(q[0].ack), taken)] && rest == if taken then q[1..] else q
  }

  lemma SendingOffersHead(s: Engine, now: uint32)
    ensures var (t, sent) := SendPendingAck(s, now);
            && t == s.(acks := t.acks, log := t.log)
            && HeadOffered(s.acks, s.log, s.callbacks.send, now, t.acks, t.log)
            && (sent <==> |t.acks| < |s.acks|)
  {
    hide Encode;
  }

  /** A flush offers the head of the queue, and does nothing else. */
  lemma FlushOffersHead(s: Engine, now: uint32, t: Engine)
    requires Leads(s, FlushInput(now), t)
    ensures t == s.(acks := t.acks, log := t.log)
    ensures HeadOffered(s.acks, s.log, s.callbacks.send, now, t.acks, t.log)
  {
    hide HeadOffered;
    LeadsIs(s, FlushInput(now), t);
    SendingOffersHead(s, now);
  }

  predicate NoAcks(a: Log, b: Log) {
    a <= b && forall k :: |a| <= k < |b| ==> !(b[k].Sent? && b[k].frame.Ack?)
  }

  /** Every tick: first the waiting datagrams are offered to the egress until it takes one, which leads to u;
      then the head of the queue is offered to the radio. Only when neither got anything through is
      anything else sent, and no tick sends a second acknowledgement. */
  lemma TickAnswers(s: Engine, now: uint32, t: Engine) returns (u: Engine, after: Log)
    requires Reachable(s) && Leads(s, TickInput(now), t)
    ensures OnlyAsked(s.log, u.log) && TxSame(s, u) && AcksOk(u.acks) && u.rx == t.rx && u.window == t.window
    ensures u == s.(log := u.log) || exists j :: 0 <= j < 4 && s.rx[j].waiting && Delivers(s, u, j, now)
    ensures u == s.(log := u.log) ==> AcceptedIds(u.log) == AcceptedIds(s.log)
    ensures HeadOffered(u.acks, u.log, s.callbacks.send, now, t.acks, after) && NoAcks(after, t.log)
    ensures u != s.(log := u.log) || |t.acks| < |u.acks| ==> t == u.(acks := t.acks, log := after)
  {
    hide Reachable, Inv, RxOk, OnlyAsked, AcceptedIds, Delivers, TryCompleteRxSlots, SendPendingAck, TxTick,
         HeadOffered;
    hide NoAcks, TxInv, RxSame, TxSame, Leads, AcksOk, RxPoolOk;
    ReachableInv(s);
    InvParts(s);
    ArqTiming.TickLeads(s, now, t);
    WaitingDelivers(s, 0, now);
    TryCompleteAllKeeps(s, 0, now);
    var completed;
    u, completed := TryCompleteRxSlots(s, 0, now).0, TryCompleteRxSlots(s, 0, now).1;
    RxOkParts(u);
    SendingOffersHead(u, now);
    var v := SendPendingAck(u, now).0;
    after := v.log;
    SameCallbacks(s, u);
    ArqLink.TickHalves(s, now);
    TransmitsNoAcks(v, TxTick(v, now));
    RxPartsSame(v, TxTick(v, now));
    if completed {
      DeliversChanges(s, u, now);
    }
  }

  lemma TransmitsNoAcks(s: Engine, t: Engine)
    requires RxSame(s, t)
    ensures NoAcks(s.log, t.log) && NoAcks(s.log, s.log)
  {}

  lemma RxPartsSame(s: Engine, t: Engine)
    requires RxSame(s, t)
    ensures t.rx == s.rx && t.window == s.window && t.acks == s.acks
  {
    hide Grew;
  }

  lemma DeliversChanges(s: Engine, t: Engine, now: uint32)
    requires exists j :: 0 <= j < 4 && s.rx[j].waiting && Delivers(s, t, j, now)
    ensures t != s.(log := t.log)
  {
    hide AcceptedIds, Enqueued, Store, OutputOf;
    var j :| 0 <= j < 4 && s.rx[j].waiting && Delivers(s, t, j, now);
    assert !t.rx[j].active;
  }

  /** The slot whose datagram has first call on the egress. */
  predicate LowestWaiting(rx: RxSlots, j: nat) {
    j < 4 && rx[j].active && rx[j].waiting && forall k :: 0 <= k < j ==> !(rx[k].active && rx[k].waiting)
  }

  lemma {:induction false} UpToWaiting(s: Engine, i: nat, j: nat, now: uint32)
    requires i <= j && LowestWaiting(s.rx, j)
    ensures TryCompleteRxSlots(s, i, now) == TryCompleteRxSlots(s, j, now)
    decreases j - i
  {
    hide TryCompleteRxSlot;
    if i < j {
      UpToWaiting(s, i + 1, j, now);
    }
  }

  lemma ReadyDelivers(s: Engine, j: nat, now: uint32)
    requires RxOk(s) && EgressReady(s) && LowestWaiting(s.rx, j)
    ensures var (t, completed) := TryCompleteRxSlots(s, 0, now); completed && Delivers(s, t, j, now)
  {
    UpToWaiting(s, 0, j, now);
    hide RxOk, MidData, EgressReady, TryCompleteRxSlot, Delivers, OnlyAsked;
    MidDataOfOk(s, j);
    OwnSlot(s, j);
    ReadyOffers(s, j);
    CompletingDelivers(s, j, now);
  }

  /** A datagram that waits is not forgotten: once the egress has room and takes it, a tick delivers the one
      in the lowest waiting slot. That slot alone is emptied, the datagram is acknowledged in full, and
      the tick sends nothing but the acknowledgement at the head of the queue. */
  lemma WaitingIsDelivered(s: Engine, j: nat, now: uint32, t: Engine) returns (u: Engine, after: Log)
    requires Reachable(s) && EgressReady(s) && LowestWaiting(s.rx, j) && Leads(s, TickInput(now), t)
    ensures Delivers(s, u, j, now) && TxSame(s, u) && OnlyAsked(s.log, u.log)
    ensures HeadOffered(u.acks, u.log, s.callbacks.send, now, t.acks, after)
    ensures t == u.(acks := t.acks, log := after)
  {
    hide Reachable, Inv, RxOk, OnlyAsked, AcceptedIds, Delivers, TryCompleteRxSlots, SendPendingAck, TxTick,
         HeadOffered;
    hide TxInv, TxSame, Leads, EgressReady, LowestWaiting;
    ReachableInv(s);
    InvParts(s);
    ArqTiming.TickLeads(s, now, t);
    ReadyDelivers(s, j, now);
    WaitingDelivers(s, 0, now);
    TryCompleteAllKeeps(s, 0, now);
    u := TryCompleteRxSlots(s, 0, now).0;
    SameCallbacks(s, u);
    SendingOffersHead(u, now);
    after := SendPendingAck(u, now).0.log;
  }

  // ---- the deadline of the queue ----

  /** A tick delivers the very datagram the head of the queue is about, and so renews that
      acknowledgement. */
  predicate RenewsHead(s: Engine, t: Engine)
    requires |s.acks| > 0
  {
    AcceptedIds(t.log) == AcceptedIds(s.log) + [s.acks[0].ack.datagramId]
  }

  lemma HeadStays(s: Engine, now: uint32, t: Engine, u: Engine, after: Log)
    requires |s.acks| > 0 && !RenewsHead(s, t) && NoAcks(after, t.log)
    requires u == s.(log := u.log) || exists j :: 0 <= j < 4 && s.rx[j].waiting && Delivers(s, u, j, now)
    requires HeadOffered(u.acks, u.log, s.callbacks.send, now, t.acks, after)
    requires u != s.(log := u.log) || |t.acks| < |u.acks| ==> t == u.(acks := t.acks, log := after)
    ensures |u.acks| > 0 && u.acks[0] == s.acks[0]
  {
    if u != s.(log := u.log) {
      var j :| 0 <= j < 4 && s.rx[j].waiting && Delivers(s, u, j, now);
      OfferedAcceptsNothing(u.acks, u.log, s.callbacks.send, now, t.acks, after);
      HeadApart(s, u, j, now);
      hide Delivers, AcceptedIds, HeadOffered;
    }
  }

  lemma OfferedAcceptsNothing(q: seq<PendingAck>, before: Log, send: Option<(Log, Packet) -> bool>, now: uint32,
                              rest: seq<PendingAck>, after: Log)
    requires HeadOffered(q, before, send, now, rest, after)
    ensures AcceptedIds(after) == AcceptedIds(before)
  {
    hide AcceptedIds, Encode, Reached;
    if after != before {
      AcceptedAppend(before, after[|before|]);
      assert AcceptedIds(before) + [] == AcceptedIds(before);
    }
  }

  lemma HeadApart(s: Engine, u: Engine, j: nat, now: uint32)
    requires |s.acks| > 0 && Delivers(s, u, j, now)
    ensures AcceptedIds(u.log) == AcceptedIds(s.log) + [s.rx[j].reassembly.datagramId]
    ensures s.rx[j].reassembly.datagramId != s.acks[0].ack.datagramId ==> |u.acks| > 0 && u.acks[0] == s.acks[0]
  {
    hide AcceptedIds, Store, OutputOf, Allowance, FreeSlots, LastAnswer;
  }

  /** With an acknowledgement pending the reported deadline is the head's, and a tick before it sends no
      acknowledgement, unless it delivers the head's own datagram. */
  lemma NoAckBeforeDeadline(s: Engine, now: uint32, x: uint32, t: Engine)
    requires Reachable(s) && |s.acks| > 0 && Leads(s, TickInput(x), t) && !RenewsHead(s, t)
    ensures NextDeadline(s, now) == Some(s.acks[0].readyDeadline)
    ensures var d := s.acks[0].readyDeadline;
            ArqTiming.Ahead(now, d) && ArqTiming.Before(now, x, d) ==> NoAcks(s.log, t.log)
  {
    hide Reachable, Leads, RenewsHead, OnlyAsked, Delivers, AcceptedIds, TxSame, Reached, Wrap32;
    var d := s.acks[0].readyDeadline;
    if ArqTiming.Ahead(now, d) && ArqTiming.Before(now, x, d) {
      ArqTiming.NotReachedBefore(now, x, d);
      var u, after := TickAnswers(s, x, t);
      HeadStays(s, x, t, u, after);
      AskedSendsNothing(s.log, u.log, t.log);
    }
  }

  lemma AskedSendsNothing(a: Log, b: Log, c: Log)
    requires OnlyAsked(a, b) && NoAcks(b, c)
    ensures NoAcks(a, c)
  {
    forall k | |a| <= k < |c| ensures !(c[k].Sent? && c[k].frame.Ack?) {
      if k < |b| {
        assert c[k] == b[k];
      }
    }
  }

  lemma TailOmits(q: seq<PendingAck>)
    requires |q| > 0 && AcksOk(q)
    ensures !ArqTiming.HasPending(q[1..], q[0].ack.datagramId)
  {
    forall j | 0 <= j < |q| - 1 ensures q[1..][j].ack.datagramId != q[0].ack.datagramId {
      assert q[1..][j] == q[j + 1];
    }
  }

  /** And a tick at it offers the head to the radio, which either takes it off the queue or leaves it at
      the head. */
  lemma AckAtDeadline(s: Engine, now: uint32, d: uint32, t: Engine)
    requires Reachable(s) && |s.acks| > 0 && NextDeadline(s, now) == Some(d) && s.callbacks.send.Some?
    requires Leads(s, TickInput(d), t) && !RenewsHead(s, t)
    ensures s.log <= t.log
    ensures exists taken :: Sent(Ack(s.acks[0].ack), taken) in t.log[|s.log|..]
                            && (if taken then !ArqTiming.HasPending(t.acks, s.acks[0].ack.datagramId)
                                else |t.acks| > 0 && t.acks[0] == s.acks[0])
  {
    hide Reachable, Leads, RenewsHead, Delivers, AcceptedIds, TxSame, Encode;
    var u, after := TickAnswers(s, d, t);
    HeadStays(s, d, t, u, after);
    ArqTiming.ReachedAt(d);
    TailOmits(u.acks);
    hide Reached, AcksOk, ArqTiming.HasPending;
    assert t.log[|s.log|..][|u.log| - |s.log|] == after[|u.log|];
  }
}
