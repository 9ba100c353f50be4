/** Exactly-once delivery is not unconditional: when the engine delivers a datagram it has delivered
    before, and a run in which it does. */
module Redelivery {
  import opened Words
  import opened FramingV3
  import opened FragmentV3
  import opened DatagramPool
  import opened DuplicateWindow
  import opened ArqState
  import opened ArqInvariant
  import opened AtMostOnce
  import ArqConvergence

  /** The egress reports room and takes the next datagram, whatever it is. */
  ghost predicate EgressReady(s: Engine) {
    && (s.callbacks.egress.Some? ==> s.callbacks.egress.value(s.log) > 0)
    && s.callbacks.deliver.Some?
    && forall d: Bytes :: s.callbacks.deliver.value(AskEgress(s, 1).0.log, d)
  }

  /** The whole of a datagram in one valid fragment. */
  predicate Single(h: DataHeader, payload: Bytes) {
    ValidateDataHeader(h) && h.fragmentCount == 1 && |payload| == h.payloadLen
  }

  /** No slot holds the id, and one is free. */
  predicate SlotFree(s: Engine, id: uint16) {
    RxSlotFor(s.rx, id, 0) == 4 && FirstInactive(s.rx, 0) < 4
  }

  lemma SingleIsWhole(h: DataHeader, payload: Bytes)
    requires Single(h, payload)
    ensures Datagram(payload) && h.fragmentIndex == 0 && FragmentOf(h, payload, h.datagramId, payload)
    ensures All(payload) == {0}
  {
    Geometry(h.datagramLength, 0);
    assert Slice(payload, 0) == payload;
  }

  /** A single fragment makes a reassembly complete at once. */
  lemma SingleCompletes(output: Bytes, h: DataHeader, payload: Bytes)
    requires Single(h, payload) && |output| == V3_MAX_DATAGRAM
    ensures var a := AcceptFragment(ResetReassembly(V3_MAX_DATAGRAM), output, h, payload);
            ReassemblyIsComplete(a.state) && a.result == OK
  {
    SingleIsWhole(h, payload);
    hide FragmentOf, AcceptFragment, ReassemblyIsComplete, Placed;
    var a := AcceptFragment(ResetReassembly(V3_MAX_DATAGRAM), output, h, payload);
    AcceptAssembles(ResetReassembly(V3_MAX_DATAGRAM), output, h, payload, h.datagramId, payload);
    CompleteExactlyWhenAllReceived(a.state);
  }

  lemma ReadyOffers(s: Engine, i: nat)
    requires EgressReady(s) && i < 4
    ensures Offer(s, i).1
  {
    hide OutputOf;
  }

  /** What putting a single fragment into a fresh slot leads to. */
  lemma SingleGoesIn(s: Engine, h: DataHeader, payload: Bytes)
    requires RxOk(s) && Find(s.window, h.datagramId).None? && Single(h, payload) && SlotFree(s, h.datagramId)
    ensures var (t, i) := SlotForData(s, h.datagramId);
            i < 4 &&
            var (u, result) := AcceptInto(t, i, h, payload);
            && MidData(u, i) && ReassemblyIsComplete(u.rx[i].reassembly) && result == OK
            && u == s.(rx := s.rx[i := u.rx[i]], rxPool := u.rxPool) && s.rx[i] == EMPTY_RX
            && u.rx[i].reassembly.datagramId == h.datagramId
  {
    hide RxOk, ReadyFor, MidData, AllocateRxSlot, AcceptFragment, Find, ReassemblyIsComplete, SlotForData;
    SlotForDataReady(s, h.datagramId);
    AllocateRxKeeps(s);
    FreshSlot(s, h.datagramId);
    var (t, i) := SlotForData(s, h.datagramId);
    var (u, result) := AcceptInto(t, i, h, payload);
    AcceptIntoKeeps(t, i, h, payload, u, result);
    FreshBuffer(t, i, h.datagramId);
    SingleCompletes(Buffer(t.rxPool, t.rx[i].handle), h, payload);
    InactiveIsEmpty(s, i);
  }

  lemma FreshSlot(s: Engine, id: uint16)
    requires SlotFree(s, id)
    ensures SlotForData(s, id) == AllocateRxSlot(s)
  {
    hide AllocateRxSlot;
  }

  lemma FreshBuffer(s: Engine, i: nat, id: uint16)
    requires ReadyFor(s, i, id)
    ensures i < 4 && |Buffer(s.rxPool, s.rx[i].handle)| == V3_MAX_DATAGRAM
  {
    hide IdsOk, AcksOk, Find, Settled, Consistent;
    assert RxSlotOk(s.rx[i]);
  }

  lemma InactiveIsEmpty(s: Engine, i: nat)
    requires RxOk(s) && i < 4
    ensures !s.rx[i].active ==> s.rx[i] == EMPTY_RX
  {
    hide IdsOk, AcksOk, PoolOk;
    assert RxSlotOk(s.rx[i]);
  }

  /** A single fragment the window does not know is delivered at once, and leaves the slots as they
      were. */
  lemma SingleIsDelivered(s: Engine, h: DataHeader, payload: Bytes, now: uint32)
    requires RxOk(s) && Find(s.window, h.datagramId).None? && Single(h, payload) && SlotFree(s, h.datagramId)
    requires EgressReady(s)
    ensures var t := HandleData(s, h, payload, now);
            && AcceptedIds(t.log) == AcceptedIds(s.log) + [h.datagramId] && t.rx == s.rx
            && exists ack :: t.window == Store(s.window, h.datagramId, ack)
  {
    hide RxOk, MidData, AcceptInto, SlotForData, Find, ReassemblyIsComplete, SlotFree, Single, EgressReady, AcceptedIds;
    hide FinishDelivery, Offer, Store, AcksOk, AfterAccept, QueueFailureAck;
    SingleGoesIn(s, h, payload);
    var (t, i) := SlotForData(s, h.datagramId);
    var (u, result) := AcceptInto(t, i, h, payload);
    assert HandleData(s, h, payload, now) == AfterAccept(u, i, h, now);
    ReadySame(s, u);
    DeliveredNow(u, i, h, now);
    assert u.rx[i := EMPTY_RX] == s.rx;
  }

  lemma ReadySame(s: Engine, t: Engine)
    requires EgressReady(s) && t.callbacks == s.callbacks && t.log == s.log
    ensures EgressReady(t)
  {
    assert AskEgress(t, 1).0.log == AskEgress(s, 1).0.log;
  }

  lemma DeliveredNow(u: Engine, i: nat, h: DataHeader, now: uint32)
    requires i < 4 && MidData(u, i) && ReassemblyIsComplete(u.rx[i].reassembly) && EgressReady(u)
    ensures var id := u.rx[i].reassembly.datagramId;
            var t := AfterAccept(u, i, h, now);
            && AcceptedIds(t.log) == AcceptedIds(u.log) + [id] && t.rx == u.rx[i := EMPTY_RX]
            && exists ack :: t.window == Store(u.window, id, ack)
  {
    hide MidData, EgressReady, AcceptedIds, FinishDelivery, Offer, Store, AcksOk, ReassemblyIsComplete, QueueRxAck;
    MidParts(u, i);
    ReadyOffers(u, i);
    OfferAccepts(u, i);
    FinishAccepts(Offer(u, i).0, i, now);
    ArqConvergence.CompletedSlots(u, i, now);
  }

  // ---- exactly when ----

  /** In every reachable state a single-fragment packet of an id is delivered if and only if the window
      does not remember the id, given a receive slot and an egress that takes it. */
  lemma DeliveredExactlyWhenUnknown(s: Engine, p: Packet, h: DataHeader, payload: Bytes, now: uint32, t: Engine)
    requires Reachable(s) && Leads(s, PacketInput(p, now), t)
    requires Decode(p) == Success(DataFrame(h, payload)) && h.fragmentCount == 1
    requires SlotFree(s, h.datagramId) && EgressReady(s)
    ensures AcceptedIds(t.log) == AcceptedIds(s.log)
              + (if h.datagramId in MemoryAfter(AcceptedIds(s.log)).live then [] else [h.datagramId])
  {
    hide *;
    ReachableInv(s);
    InvParts(s);
    WindowIsItsHistory(s);
    KnownIsLive(s.window, h.datagramId);
    LeadsIs(s, PacketInput(p, now), t);
    DecodedIsBuildable(p);
    PacketIsData(s, p, h, payload, now);
    if h.datagramId in MemoryAfter(AcceptedIds(s.log)).live {
      KnownIsAgain(s, h, payload, now);
    } else {
      SingleIsDelivered(s, h, payload, now);
    }
  }

  lemma PacketIsData(s: Engine, p: Packet, h: DataHeader, payload: Bytes, now: uint32)
    requires Decode(p) == Success(DataFrame(h, payload)) && Buildable(DataFrame(h, payload))
    ensures Apply(s, PacketInput(p, now)) == HandleData(s, h, payload, now)
    ensures h.fragmentCount == 1 ==> Single(h, payload)
  {
    hide Decode, HandleData, ValidateDataHeader;
  }

  lemma KnownIsAgain(s: Engine, h: DataHeader, payload: Bytes, now: uint32)
    requires Find(s.window, h.datagramId).Some?
    ensures AcceptedIds(HandleData(s, h, payload, now).log) == AcceptedIds(s.log) + []
  {
    var known := Find(s.window, h.datagramId).value;
    AgainQuiet(s, h.datagramId, known, now);
    hide AckAgain, Find, AcceptedIds;
    assert AcceptedIds(s.log) + [] == AcceptedIds(s.log);
  }

  /** Redelivery, exactly: in every reachable state in which a datagram was delivered, a packet that
      repeats it is delivered again if and only if since then some delivery, its own included, made the
      window forget the id. */
  lemma RedeliveredExactlyWhenForgotten(s: Engine, ids: seq<uint16>, n: nat, p: Packet, h: DataHeader, payload: Bytes,
                                        now: uint32, t: Engine)
    requires Reachable(s) && ids == AcceptedIds(s.log) && Leads(s, PacketInput(p, now), t)
    requires Decode(p) == Success(DataFrame(h, payload)) && h.fragmentCount == 1
    requires SlotFree(s, h.datagramId) && EgressReady(s)
    requires n < |ids| && ids[n] == h.datagramId && forall q :: n < q < |ids| ==> ids[q] != h.datagramId
    ensures AcceptedIds(t.log) == ids + [h.datagramId] || AcceptedIds(t.log) == ids
    ensures AcceptedIds(t.log) == ids + [h.datagramId] <==>
              exists q :: n <= q < |ids| && ForgottenAt(ids, q, h.datagramId)
  {
    hide Reachable, Leads, Decode, SlotFree, EgressReady, AcceptedIds, MemoryAfter, ForgottenAt;
    DeliveredExactlyWhenUnknown(s, p, h, payload, now, t);
    ForgottenExactly(ids, n, h.datagramId);
    assert ids + [] == ids && |ids + [h.datagramId]| == |ids| + 1;
  }

  // ---- a run that delivers a datagram twice ----

  /** Callbacks of an egress that always takes what it is offered. */
  function Accepting(): Callbacks {
    Callbacks(None, Some((log: Log, data: Bytes) => true), None)
  }

  /** The one-byte datagram of an id, in its only fragment. */
  function OneByte(id: uint16): (f: Frame)
    ensures Buildable(f) && f.DataFrame? && Single(f.header, f.payload) && f.header.datagramId == id
  {
    DataFrame(DataHeader(V3_DATA_FLAG_ROUND_END, 0, id, 0, 1, 1, 1), [7])
  }

  function PacketOf(id: uint16): Input {
    PacketInput(Encode(OneByte(id)), 0)
  }

  /** Id 0 arrives after having been overtaken by id 64, and is repeated. */
  function Overtaken(): seq<Input> {
    [PacketOf(64), PacketOf(0), PacketOf(0)]
  }

  /** An idle receiver whose egress takes everything. */
  ghost predicate Idle(s: Engine) {
    Inv(s) && MemoryInv(s) && s.rx == NO_RX_SLOTS && s.callbacks == Accepting()
  }

  lemma IdleDelivers(s: Engine, id: uint16)
    requires Idle(s) && id !in MemoryAfter(AcceptedIds(s.log)).live
    ensures var t := Apply(s, PacketOf(id));
            Idle(t) && AcceptedIds(t.log) == AcceptedIds(s.log) + [id]
  {
    hide Inv, MemoryAfter, MemoryOf, AcceptedIds, OnceInMemory, HandleData, Find, Decode, Encode, ValidateDataHeader,
         RxOk;
    hide TxSame, Store;
    InvParts(s);
    var f := OneByte(id);
    CodecRoundTrip(f);
    KnownIsLive(s.window, id);
    IdleHasRoom(s, id);
    SingleIsDelivered(s, f.header, f.payload, 0);
    PacketIsData(s, Encode(f), f.header, f.payload, 0);
    HandleDataKeeps(s, f.header, f.payload, 0) by { SingleValid(f.header, f.payload); }
    SameCallbacks(s, HandleData(s, f.header, f.payload, 0));
    ApplyKeepsInv(s, PacketOf(id));
    ApplyRemembers(s, PacketOf(id));
  }

  lemma SingleValid(h: DataHeader, payload: Bytes)
    requires Single(h, payload)
    ensures ValidateDataHeader(h) && |payload| == h.payloadLen
  {}

  lemma SameCallbacks(s: Engine, t: Engine)
    requires TxSame(s, t)
    ensures t.callbacks == s.callbacks
  {}

  lemma IdleHasRoom(s: Engine, id: uint16)
    requires s.rx == NO_RX_SLOTS && s.callbacks == Accepting()
    ensures SlotFree(s, id) && EgressReady(s)
  {}

  lemma ResetIsIdle(config: Config)
    ensures Idle(Reset(config, Accepting())) && AcceptedIds(Reset(config, Accepting()).log) == []
  {
    ResetInv(config, Accepting());
    FreshMemory(Reset(config, Accepting()));
    hide Inv, MemoryInv, FreshPool, ClampCredits;
  }

  /** Exactly-once fails: whatever the configuration, on these three packets the engine hands the
      datagram of id 0 to its egress twice, and is told both times that it was taken. */
  lemma OvertakenIsDeliveredTwice(config: Config) returns (states: seq<Engine>)
    ensures History(config, Accepting(), states, Overtaken())
    ensures AcceptedIds(states[3].log) == [64, 0, 0]
  {
    hide Idle, Apply, Reset, AcceptedIds, MemoryAfter, PacketOf;
    var s0 := Reset(config, Accepting());
    var s1 := Apply(s0, PacketOf(64));
    var s2 := Apply(s1, PacketOf(0));
    var s3 := Apply(s2, PacketOf(0));
    states := [s0, s1, s2, s3];
    ResetIsIdle(config);
    OvertakenMemory();
    IdleDelivers(s0, 64);
    assert [] + [64] == [64];
    IdleDelivers(s1, 0);
    assert [64] + [0] == [64, 0];
    IdleDelivers(s2, 0);
    assert [64, 0] + [0] == [64, 0, 0];
    forall k | 0 <= k <= 3 ensures StateAt(config, Accepting(), states, Overtaken(), k) {}
  }

  lemma OvertakenMemory()
    ensures 64 !in MemoryAfter([]).live && 0 !in MemoryAfter([64]).live && 0 !in MemoryAfter([64, 0]).live
  {
    OvertakenIsForgotten();
    hide MemoryAfter;
    assert FreshAt([64, 0, 0], 0) && FreshAt([64, 0, 0], 1);
    assert [64, 0, 0][..0] == [] && [64, 0, 0][..1] == [64];
  }
}
