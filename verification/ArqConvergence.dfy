/** Selective repeat converges: what a receiver holds it keeps until delivery, so one round of the
    fragments still missing completes the datagram. */
module ArqConvergence {
  import opened Words
  import opened FramingV3
  import opened FragmentV3
  import opened DatagramPool
  import opened DuplicateWindow
  import opened ArqState
  import opened ArqInvariant
  import opened ArqReceiver
  import opened ArqSender
  import opened ArqLink
  import opened ArqRounds

  predicate Holding(s: Engine, id: uint16) {
    RxSlotFor(s.rx, id, 0) < 4
  }

  ghost predicate Done(s: Engine, id: uint16) {
    id in RecordOf(s.log).done
  }

  /** Between s and t id was delivered, or everything held for it is still held. */
  ghost predicate Retains(s: Engine, t: Engine, id: uint16) {
    Done(t, id) || (HeldBits(s.rx, id) <= HeldBits(t.rx, id) && (Holding(s, id) ==> Holding(t, id)))
  }

  lemma RetainsTrans(s: Engine, t: Engine, u: Engine, id: uint16)
    requires Retains(s, t, id) && Retains(t, u, id) && t.log <= u.log
    ensures Retains(s, u, id)
  {
    RecordGrows(t.log, u.log);
    hide RecordOf, HeldBits, Holding;
  }

  lemma SameSlotsRetain(s: Engine, t: Engine, id: uint16)
    requires forall j :: 0 <= j < 4 ==> s.rx[j].active == t.rx[j].active && s.rx[j].reassembly == t.rx[j].reassembly
    ensures Retains(s, t, id)
  {}

  /** A slot is emptied by delivery only. */
  lemma CompletingRetains(s: Engine, i: nat, now: uint32, id: uint16, book: Book)
    requires RxLink(s, book) && i < 4 && MidData(s, i)
    ensures Retains(s, TryCompleteRxSlot(s, i, now).0, id)
  {
    hide MidData, RxLink, RecordOf, HeldBits, ReassemblyIsComplete;
    CompletingKeepsLink(s, i, now, book);
    var (t, completed) := TryCompleteRxSlot(s, i, now);
    if completed {
      CompletedSlots(s, i, now);
      hide TryCompleteRxSlot;
      if s.rx[i].reassembly.datagramId != id {
        OtherBits(s.rx, i, EMPTY_RX, id);
        OtherHolding(s.rx, i, id);
      }
    } else {
      hide TryCompleteRxSlot;
      SameSlotsRetain(s, t, id);
    }
  }

  lemma CompletedSlots(s: Engine, i: nat, now: uint32)
    requires i < 4 && MidData(s, i) && TryCompleteRxSlot(s, i, now).1
    ensures TryCompleteRxSlot(s, i, now).0.rx == s.rx[i := EMPTY_RX]
  {
    hide MidData, FinishDelivery;
    assert AcksOk(s.acks) by { MidAcks(s, i); }
    OfferKeeps(s, i);
    FinishDeliveryShape(Offer(s, i).0, i, now, FinishDelivery(Offer(s, i).0, i, now));
    hide Offer, AcksOk;
  }

  lemma MidAcks(s: Engine, i: nat)
    requires MidData(s, i)
    ensures AcksOk(s.acks)
  {
    hide AcksOk;
  }

  lemma OtherHolding(rx: RxSlots, i: nat, id: uint16)
    requires i < 4 && rx[i].reassembly.datagramId != id
    ensures RxSlotFor(rx, id, 0) < 4 ==> RxSlotFor(rx[i := EMPTY_RX], id, 0) < 4
  {
    if RxSlotFor(rx, id, 0) < 4 {
      assert rx[i := EMPTY_RX][RxSlotFor(rx, id, 0)] == rx[RxSlotFor(rx, id, 0)];
    }
  }

  lemma {:induction false} CompletingAllRetains(s: Engine, i: nat, now: uint32, id: uint16, book: Book)
    requires RxLink(s, book) && RxOk(s) && i <= 4
    ensures Retains(s, TryCompleteRxSlots(s, i, now).0, id)
    decreases 4 - i
  {
    hide RxOk, RxLink, TryCompleteRxSlot, MidData, Retains, TxSame;
    if i < 4 {
      if s.rx[i].active && s.rx[i].waiting {
        MidDataOfOk(s, i);
        CompletingKeepsLink(s, i, now, book);
        CompletingRetains(s, i, now, id, book);
        var (t, completed) := TryCompleteRxSlot(s, i, now);
        if !completed {
          LogOnlyRxOk(s, t);
          CompletingAllRetains(t, i + 1, now, id, book);
          TryCompleteAllKeeps(t, i + 1, now);
          SameGrows(t, TryCompleteRxSlots(t, i + 1, now).0);
          RetainsTrans(s, t, TryCompleteRxSlots(t, i + 1, now).0, id);
        }
      } else {
        CompletingAllRetains(s, i + 1, now, id, book);
      }
    } else {
      SameSlotsRetain(s, s, id);
    }
  }

  lemma AfterAcceptRetains(s: Engine, i: nat, h: DataHeader, now: uint32, id: uint16, book: Book)
    requires RxLink(s, book) && i < 4 && MidData(s, i)
    ensures Retains(s, AfterAccept(s, i, h, now), id)
  {
    hide MidData, RxLink, TryCompleteRxSlot, QueueRxAck, ReassemblyIsComplete, Retains;
    MidAcks(s, i);
    QueueRxAckKeeps(s, i, NONE, now);
    if ReassemblyIsComplete(s.rx[i].reassembly) {
      CompletingKeepsLink(s, i, now, book);
      CompletingRetains(s, i, now, id, book);
      var (t, completed) := TryCompleteRxSlot(s, i, now);
      if !completed {
        var u := SetRx(t, i, t.rx[i].(waiting := true));
        QueueRxAckKeeps(u, i, CREDIT_WITHDRAWAL, now);
        SameSlotsRetain(s, QueueRxAck(u, i, CREDIT_WITHDRAWAL, now), id);
      }
    } else {
      SameSlotsRetain(s, QueueRxAck(s, i, NONE, now), id);
      SameSlotsRetain(s, s, id);
    }
  }

  /** There is a slot for fragments of id: its own or a free one. */
  predicate Room(s: Engine, id: uint16) {
    Holding(s, id) || FirstInactive(s.rx, 0) < 4
  }

  lemma FragmentRetains(s: Engine, h: DataHeader, payload: Bytes, book: Book, i: nat, u: Engine,
                        result: FragmentResult, id: uint16)
    requires GoesIn(s, h, payload, book, i, u, result)
    ensures Retains(s, u, id)
    ensures id == h.datagramId ==> Holding(u, id) && h.fragmentIndex in HeldBits(u.rx, id)
  {
    hide GoesIn, MidData, RxLink, RecordOf;
    FragmentKeepsLink(s, h, payload, book, i, u, result);
    DistinctIds(u, i);
    FindInSlots(u.rx, i, h.datagramId);
    if id != h.datagramId {
      OtherBits(s.rx, i, u.rx[i], id);
      if Holding(s, id) {
        assert u.rx[RxSlotFor(s.rx, id, 0)] == s.rx[RxSlotFor(s.rx, id, 0)];
      }
      hide HeldBits;
    }
  }

  /** A fragment that finds room is held afterwards, or its datagram delivered; nothing held for
      any other datagram is lost. */
  lemma DataRetains(s: Engine, h: DataHeader, payload: Bytes, now: uint32, book: Book, id: uint16)
    requires RxOk(s) && RxLink(s, book) && GenuineData(h, payload, book)
    ensures var t := HandleData(s, h, payload, now);
            && Retains(s, t, id)
            && (id == h.datagramId && Room(s, id) ==>
                  Done(t, id) || (Holding(t, id) && h.fragmentIndex in HeldBits(t.rx, id)))
  {
    hide RxOk, RxLink, AckAgain, Find, QueueFailureAck, AcceptInto, AfterAccept, MidData, FragmentOf, HeldBits,
         RecordOf;
    hide Retains;
    var x := h.datagramId;
    match Find(s.window, x)
    case Some(known) =>
      KnownIsDone(s, x, book);
      AckAgainSlots(s, x, known, now);
      SameSlotsRetain(s, AckAgain(s, x, known, now), id);
    case None =>
      var (t, i) := SlotForData(s, x);
      AllocateRxKeeps(s);
      hide AllocateRxSlot;
      if i == 4 {
        AcksOfOk(s);
        QueueFailureAckKeeps(s, x, {}, ALLOCATION_FAILURE, now);
        SameSlotsRetain(s, QueueFailureAck(s, x, {}, ALLOCATION_FAILURE, now), id);
      } else {
        hide SlotForData;
        var (u, result) := AcceptInto(t, i, h, payload);
        FragmentKeepsLink(s, h, payload, book, i, u, result);
        FragmentRetains(s, h, payload, book, i, u, result, id);
        DataTail(s, u, i, h, now, book, id);
      }
  }

  lemma DataTail(s: Engine, u: Engine, i: nat, h: DataHeader, now: uint32, book: Book, id: uint16)
    requires i < 4 && MidData(u, i) && RxLink(u, book) && Retains(s, u, id) && u.log == s.log
    requires id == h.datagramId ==> Holding(u, id) && h.fragmentIndex in HeldBits(u.rx, id)
    ensures var t := AfterAccept(u, i, h, now);
            Retains(s, t, id)
            && (id == h.datagramId ==> Done(t, id) || (Holding(t, id) && h.fragmentIndex in HeldBits(t.rx, id)))
  {
    hide RxLink, AfterAccept, MidData, HeldBits, RecordOf, Holding, TxSame;
    AfterAcceptRetains(u, i, h, now, id, book);
    AfterAcceptKeeps(u, i, h, now);
    SameGrows(u, AfterAccept(u, i, h, now));
    RetainsTrans(s, u, AfterAccept(u, i, h, now), id);
  }

  lemma KnownIsDone(s: Engine, id: uint16, book: Book)
    requires RxLink(s, book) && Find(s.window, id).Some?
    ensures id in RecordOf(s.log).done
  {
    hide SlotsGenuine, Claims, RecordOf, Find;
    assert EntryHonest(Find(s.window, id).value, id, RecordOf(s.log).done, book);
  }

  lemma AckAgainSlots(s: Engine, id: uint16, known: AckState, now: uint32)
    ensures AckAgain(s, id, known, now).rx == s.rx
    ensures RecordOf(AckAgain(s, id, known, now).log) == RecordOf(s.log)
  {
    CreditsRecord(s);
    hide CurrentCredits, RecordOf;
  }

  lemma AcksOfOk(s: Engine)
    requires RxOk(s)
    ensures AcksOk(s.acks)
  {
    hide AcksOk, RxPoolOk, IdsOk;
  }

  // ---- whole steps ----

  lemma TickRetains(r: Engine, now: uint32, book: Book, id: uint16)
    requires RxLink(r, book) && Inv(r)
    ensures Retains(r, OnTick(r, now), id)
  {
    hide Inv, RxLink, RxOk, TxInv, SendPendingAck, OnTick, TxTick, TryCompleteRxSlots, TxSame, RxSame, Retains, AcksOk;
    TickHalves(r, now);
    InvParts(r);
    CompletingAllRetains(r, 0, now, id, book);
    var t := TryCompleteRxSlots(r, 0, now).0;
    var u := SendPendingAck(t, now).0;
    InvParts(t);
    AcksOfOk(t);
    SendPendingAckKeeps(t, now);
    RxSlotsSame(u, TxTick(u, now));
    SameSlotsRetain(t, u, id);
    SameSlotsRetain(t, TxTick(u, now), id);
    FlushSame(t, now);
    SameGrows(t, u);
    SameGrows(u, TxTick(u, now));
    RetainsTrans(r, t, OnTick(r, now), id);
  }

  lemma RxSlotsSame(s: Engine, t: Engine)
    requires RxSame(s, t)
    ensures t.rx == s.rx
  {}

  /** The fragment of id a packet brings, if any. */
  function FragmentIn(input: Input, id: uint16): set<nat> {
    match input
    case PacketInput(p, _) =>
      (match Decode(p)
       case Success(f) => if f.DataFrame? && f.header.datagramId == id then {f.header.fragmentIndex} else {}
       case Failure(_) => {})
    case _ => {}
  }

  lemma FrameRetains(s: Engine, r: Engine, f: Frame, now: uint32, id: uint16)
    requires OneWay(s, r) && Inv(r) && Buildable(f)
    requires f.ControlFrame? || f.MgmtFrame? || WasSent(s.log, f)
    ensures var t := OnFrame(r, f, now);
            && Retains(r, t, id)
            && (f.DataFrame? && f.header.datagramId == id && Room(r, id) ==>
                  Done(t, id) || (Holding(t, id) && f.header.fragmentIndex in HeldBits(t.rx, id)))
  {
    hide Inv, HandleData, HandleAck, RxOk, TxInv, ValidateDataHeader, WasSent, RecordOf, RxSame, RxLink, BookFor;
    hide SentGenuine, GenuineData, SlotsHold, AckedClaimed, CompletedDone, HeldBits, Retains, Room, Holding, Done;
    InvParts(r);
    match f
    case DataFrame(h, payload) =>
      SentDataGenuine(s.log, BookFor(s), f);
      DataRetains(r, h, payload, now, BookFor(s), id);
    case Ack(ack) =>
      HandleAckKeeps(r, ack, now);
      RxSlotsSame(r, HandleAck(r, ack, now));
      SameSlotsRetain(r, HandleAck(r, ack, now), id);
    case ControlFrame(_) => SameSlotsRetain(r, r, id);
    case MgmtFrame(_) => SameSlotsRetain(r, r, id);
  }

  lemma InputRetains(s: Engine, r: Engine, input: Input, id: uint16)
    requires OneWay(s, r) && Inv(r) && Allowed(s.log, input)
    ensures var t := Apply(r, input);
            && Retains(r, t, id)
            && (Room(r, id) && FragmentIn(input, id) != {} ==>
                  Done(t, id) || (Holding(t, id) && FragmentIn(input, id) <= HeldBits(t.rx, id)))
  {
    hide Inv, Submit, OnFrame, Decode, WasSent, SendPendingAck, OnTick, RxSame, RxLink, BookFor, HeldBits, Retains;
    hide Buildable, TxInv, RxOk, Room, Holding, Done, AcksOk;
    match input
    case SubmitInput(data) =>
      InvParts(r);
      SubmitKeeps(r, data);
      RxSlotsSame(r, Submit(r, data).0);
      SameSlotsRetain(r, Submit(r, data).0, id);
    case PacketInput(packet, now) =>
      SameSlotsRetain(r, r, id);
      if Decode(packet).Success? {
        DecodedIsBuildable(packet);
        FrameRetains(s, r, Decode(packet).value, now, id);
      }
    case TickInput(now) => TickRetains(r, now, BookFor(s), id);
    case FlushInput(now) =>
      InvParts(r);
      AcksOfOk(r);
      SendPendingAckKeeps(r, now);
      SameSlotsRetain(r, SendPendingAck(r, now).0, id);
  }

  // ---- runs ----

  /** The fragment of id a step brings to B, if any. */
  function Brought(step: Step, id: uint16): set<nat> {
    match step case AtB(input) => FragmentIn(input, id) case AtA(_) => {}
  }

  /** Fragment k of id reaches B during the steps. */
  predicate ArrivesIn(steps: seq<Step>, id: uint16, k: nat) {
    exists n :: 0 <= n < |steps| && k in Brought(steps[n], id)
  }

  lemma StepHolds(l: Link, step: Step, id: uint16)
    requires LinkInv(l) && CanDo(l, step) && UniqueIds(Do(l, step))
    requires Brought(step, id) != {} ==> Room(l.b, id)
    ensures var m := Do(l, step);
            && LinkInv(m) && Retains(l.b, m.b, id) && l.b.log <= m.b.log
            && (Done(m.b, id)
                || (Brought(step, id) <= HeldBits(m.b.rx, id) && (Brought(step, id) != {} ==> Holding(m.b, id))))
  {
    hide Inv, OneWay, Apply, Allowed, Retains, Room, FragmentIn, HeldBits, UniqueIds, Holding, Done;
    LinkStep(l, step);
    match step
    case AtA(_) => SameSlotsRetain(l.b, l.b, id);
    case AtB(input) =>
      InputRetains(l.a, l.b, input, id);
      LogGrows(l.a, l.b, input);
  }

  lemma LogGrows(s: Engine, r: Engine, input: Input)
    requires OneWay(s, r) && Inv(r) && Allowed(s.log, input)
    ensures r.log <= Apply(r, input).log
  {
    hide Inv, Submit, OnFrame, Decode, WasSent, SendPendingAck, OnTick, TxSame, RxSame, RxLink, BookFor;
    hide Buildable, TxInv, RxOk;
    match input
    case SubmitInput(data) =>
      InvParts(r);
      SubmitKeeps(r, data);
      SameGrows(r, Submit(r, data).0);
    case PacketInput(packet, now) =>
      if Decode(packet).Success? {
        DecodedIsBuildable(packet);
        FrameAtReceiver(s, r, Decode(packet).value, now);
      }
    case TickInput(now) => TickAtReceiver(r, now, BookFor(s));
    case FlushInput(now) =>
      FlushSame(r, now);
      SameGrows(r, SendPendingAck(r, now).0);
  }

  /** The n-th step brings the first fragment of id. */
  predicate FirstArrival(steps: seq<Step>, id: uint16, n: nat)
    requires n < |steps|
  {
    Brought(steps[n], id) != {} && forall m :: 0 <= m < n ==> Brought(steps[m], id) == {}
  }

  /** The first fragment of id that arrives finds a receive slot, held or free, unless the datagram
      is delivered already. */
  ghost predicate RoomAt(links: seq<Link>, steps: seq<Step>, id: uint16, n: nat)
    requires n < |steps| < |links|
  {
    FirstArrival(steps, id, n) && !Done(links[n].b, id) ==> Room(links[n].b, id)
  }

  lemma StepKeepsDone(l: Link, step: Step, id: uint16)
    requires LinkInv(l) && CanDo(l, step) && UniqueIds(Do(l, step)) && Done(l.b, id)
    ensures Done(Do(l, step).b, id) && l.b.log <= Do(l, step).b.log
  {
    hide Inv, OneWay, Apply, Allowed, RecordOf, UniqueIds;
    match step
    case AtA(_) =>
    case AtB(input) => LogGrows(l.a, l.b, input);
    DoneOnlyGrows(l, Do(l, step), id);
  }

  /** What a run has brought of id by its k-th state is held, and in a slot if it is anything. */
  ghost predicate Held(links: seq<Link>, steps: seq<Step>, id: uint16, k: nat)
    requires k <= |steps| < |links|
  {
    && HeldBits(links[0].b.rx, id) <= HeldBits(links[k].b.rx, id)
    && forall n :: 0 <= n < k ==> HeldOf(steps[n], links[k].b, id)
  }

  predicate HeldOf(step: Step, r: Engine, id: uint16) {
    Brought(step, id) <= HeldBits(r.rx, id) && (Brought(step, id) != {} ==> Holding(r, id))
  }

  /** As long as the first fragment of id finds a slot, a run keeps every fragment held or received, or
      delivers the datagram. */
  lemma {:induction false} RunHolds(links: seq<Link>, steps: seq<Step>, id: uint16, k: nat)
    requires LinkTrace(links, steps) && k <= |steps| && LinkInv(links[0]) && UniqueIds(links[k])
    requires forall n :: 0 <= n < |steps| ==> RoomAt(links, steps, id, n)
    ensures links[0].b.log <= links[k].b.log
    ensures Done(links[k].b, id) || Held(links, steps, id, k)
    decreases k
  {
    hide Inv, OneWay, Do, CanDo, Brought, HeldBits, Holding, RecordOf, Room, Done;
    if k > 0 {
      LinkInvs(links[0]);
      InvsAt(links, steps, k - 1);
      assert LinkStepAt(links, steps, k - 1) && RoomAt(links, steps, id, k - 1);
      StepGrows(links[k - 1], steps[k - 1]);
      LinkInvAt(links, steps, k - 1);
      RunHolds(links, steps, id, k - 1);
      if Done(links[k - 1].b, id) {
        StepKeepsDone(links[k - 1], steps[k - 1], id);
      } else {
        RoomStays(links, steps, id, k - 1);
        StepHolds(links[k - 1], steps[k - 1], id);
        HeldStays(links, steps, id, k - 1);
      }
    }
  }

  lemma RoomStays(links: seq<Link>, steps: seq<Step>, id: uint16, k: nat)
    requires k < |steps| < |links| && RoomAt(links, steps, id, k) && Held(links, steps, id, k)
    requires !Done(links[k].b, id)
    ensures Brought(steps[k], id) != {} ==> Room(links[k].b, id)
  {
    hide Brought, HeldBits, Holding, Done;
    if !FirstArrival(steps, id, k) && Brought(steps[k], id) != {} {
      var m :| 0 <= m < k && Brought(steps[m], id) != {};
      assert HeldOf(steps[m], links[k].b, id);
    }
  }

  lemma HeldStays(links: seq<Link>, steps: seq<Step>, id: uint16, k: nat)
    requires k < |steps| < |links| && Held(links, steps, id, k) && Retains(links[k].b, links[k + 1].b, id)
    requires Done(links[k + 1].b, id) || HeldOf(steps[k], links[k + 1].b, id)
    ensures Done(links[k + 1].b, id) || Held(links, steps, id, k + 1)
  {
    hide Brought, HeldBits, Holding, Done;
    if !Done(links[k + 1].b, id) {
      forall n | 0 <= n < k + 1 ensures HeldOf(steps[n], links[k + 1].b, id) {
        if n < k {
          assert HeldOf(steps[n], links[k].b, id);
        }
      }
    }
  }

  lemma LinkInvs(l: Link)
    requires LinkInv(l)
    ensures Inv(l.a) && Inv(l.b)
  {}

  /** The datagram has been delivered, or waits complete for its egress. */
  ghost predicate Arrived(r: Engine, id: uint16) {
    || Done(r, id)
    || exists j :: 0 <= j < 4 && r.rx[j].active && r.rx[j].reassembly.datagramId == id
                   && r.rx[j].waiting && ReassemblyIsComplete(r.rx[j].reassembly)
  }

  /** Convergence: once every fragment the sender has not seen acknowledged has arrived, in any order,
      with any repeats and anything else in between, and the first of them found a receive slot, the
      datagram has been delivered, or waits complete for its egress. */
  lemma OneRoundCompletes(links: seq<Link>, steps: seq<Step>, i: nat, id: uint16)
    requires LinkTrace(links, steps) && ReachableLink(links[0]) && UniqueIds(links[|steps|])
    requires i < 4 && links[0].a.tx[i].state != EMPTY && links[0].a.tx[i].datagramId == id
    requires forall n :: 0 <= n < |steps| ==> RoomAt(links, steps, id, n)
    requires forall k :: k in FullBitmap(links[0].a.tx[i]) - links[0].a.tx[i].acked ==> ArrivesIn(steps, id, k)
    ensures Arrived(links[|steps|].b, id)
  {
    hide ReachableLink, LinkInv, Inv, UniqueIds, Brought, RoomAt, Done, Holding, HeldBits, Retains, FullBitmap;
    hide LinkStepAt, ReassemblyIsComplete;
    var l, end := links[0], links[|steps|];
    RunKeepsLink(links, steps);
    AckedHeld(l, i);
    RunHolds(links, steps, id, |steps|);
    if !Done(end.b, id) {
      DoneOnlyGrows(l, end, id);
      FullStays(l, i, end);
      forall k | k in FullBitmap(l.a.tx[i]) ensures k in HeldBits(end.b.rx, id) {
        if k !in l.a.tx[i].acked {
          assert ArrivesIn(steps, id, k);
          var n :| 0 <= n < |steps| && k in Brought(steps[n], id);
          assert HeldOf(steps[n], end.b, id);
        }
      }
      WaitingWhenAllHeld(end, id);
    }
  }

  // ---- a sender's round on the link ----

  /** From the m-th to the e-th state slot i of A stays in one round, and no credit withdrawal for its
      datagram reaches A. */
  ghost predicate RoundLasts(links: seq<Link>, steps: seq<Step>, i: nat, m: nat, e: nat)
    requires i < 4 && m <= e <= |steps| < |links|
  {
    && (forall n :: m <= n < e ==> NotWithdrawn(steps[n], links[m].a.tx[i].datagramId))
    && (forall n :: m <= n <= e ==> SameRound(links[m].a.tx[i], links[n].a.tx[i]))
  }

  predicate NotWithdrawn(step: Step, id: uint16) {
    step.AtA? ==> !Withdraws(step.input, id)
  }

  lemma StepRound(l: Link, step: Step, i: nat)
    requires Inv(l.a) && i < 4 && SameRound(l.a.tx[i], Do(l, step).a.tx[i])
    requires NotWithdrawn(step, l.a.tx[i].datagramId)
    ensures RoundStep(l.a, Do(l, step).a, i)
  {
    hide Inv, Apply, RoundStep, Withdraws;
    match step
    case AtA(input) => InputRound(l.a, input, i);
    case AtB(_) => StillRound(l.a, i);
  }

  lemma {:induction false} LinkRoundPlays(links: seq<Link>, steps: seq<Step>, i: nat, m: nat, e: nat)
    returns (fs: seq<Frame>)
    requires LinkTrace(links, steps) && i < 4 && m <= e <= |steps| && RoundLasts(links, steps, i, m, e)
    requires Inv(links[0].a) && Inv(links[0].b)
    ensures SentData(links[e].a.log) == SentData(links[m].a.log) + fs
    ensures RoundPlay(fs, links[m].a.tx[i].datagramId, links[m].a.tx[i].round, links[e].a.tx[i].round)
    decreases e
  {
    hide Inv, Do, CanDo, SentData, NotWithdrawn, Played, Grown;
    if e == m {
      fs := [];
    } else {
      var s, t, u := links[m].a, links[e - 1].a, links[e].a;
      fs := LinkRoundPlays(links, steps, i, m, e - 1);
      InvsAt(links, steps, e - 1);
      assert LinkStepAt(links, steps, e - 1);
      assert SameRound(s.tx[i], t.tx[i]) && SameRound(s.tx[i], u.tx[i]);
      StepRound(links[e - 1], steps[e - 1], i);
      var gs := PlayOne(s.tx[i].datagramId, t.tx[i].round, u.tx[i].round, t.log, u.log);
      RoundPlayConcat(fs, gs, s.tx[i].datagramId, s.tx[i].round, t.tx[i].round, u.tx[i].round);
      fs := fs + gs;
    }
  }

  lemma StepStart(l: Link, step: Step, i: nat)
    requires Inv(l.a) && i < 4 && Begins(l.a.tx[i], Do(l, step).a.tx[i])
    ensures RoundStart(l.a, Do(l, step).a, i)
  {
    hide Inv, Apply, RoundStart;
    match step
    case AtA(input) => InputStart(l.a, input, i);
    case AtB(_) => NoBeginning(l.a.tx[i]);
  }

  /** Round discipline on the link: what a whole round at A sends, whatever B does meanwhile. */
  lemma WholeRoundOnLink(links: seq<Link>, steps: seq<Step>, i: nat, e: nat) returns (fs: seq<Frame>)
    requires LinkTrace(links, steps) && ReachableLink(links[0]) && i < 4 && 0 < e <= |steps|
    requires Begins(links[0].a.tx[i], links[1].a.tx[i]) && RoundLasts(links, steps, i, 1, e)
    ensures SentData(links[e].a.log) == SentData(links[0].a.log) + fs
    ensures InOrder(fs, links[0].a.tx[i].datagramId, Initial(links[0].a.tx[i]), links[e].a.tx[i].round)
  {
    hide ReachableLink, Inv, SentData, RoundPlay, RoundLasts, Do, CanDo, Begins, Played, Initial;
    ReachableInvs(links[0]);
    assert LinkStepAt(links, steps, 0);
    StepStart(links[0], steps[0], i);
    var s, t := links[0].a, links[1].a;
    var id, round := s.tx[i].datagramId, Initial(s.tx[i]);
    var first := PlayOne(id, round, t.tx[i].round, s.log, t.log);
    var rest := LinkRoundPlays(links, steps, i, 1, e);
    RoundPlayConcat(first, rest, id, round, t.tx[i].round, links[e].a.tx[i].round);
    fs := first + rest;
    RoundPlayMeans(fs, id, round, links[e].a.tx[i].round);
  }

  /** The DATA frames the radio took between two logs. */
  function SentBetween(before: Log, after: Log): seq<Frame> {
    if |SentData(before)| <= |SentData(after)| then SentData(after)[|SentData(before)|..] else []
  }

  /** A packet that carries frame f reaches B during the steps. */
  predicate Reaches(steps: seq<Step>, f: Frame) {
    exists n :: 0 <= n < |steps| && Carries(steps[n], f)
  }

  predicate Carries(step: Step, f: Frame) {
    step.AtB? && step.input.PacketInput? && Decode(step.input.packet) == Success(f)
  }

  /** Selective repeat converges: when A opens a datagram or retransmits it, sends that round to its
      end, and every frame of the round reaches B, in any order and with any repeats, the first to
      arrive finding a receive slot, then the datagram has been delivered, or waits complete for B's
      egress. */
  lemma LosslessRoundCompletes(links: seq<Link>, steps: seq<Step>, i: nat, id: uint16, e: nat)
    requires LinkTrace(links, steps) && ReachableLink(links[0]) && UniqueIds(links[|steps|])
    requires i < 4 && 0 < e <= |steps| && links[0].a.tx[i].datagramId == id
    requires Begins(links[0].a.tx[i], links[1].a.tx[i]) && RoundLasts(links, steps, i, 1, e)
    requires links[e].a.tx[i].round == {}
    requires forall f :: f in SentBetween(links[0].a.log, links[e].a.log) ==> Reaches(steps, f)
    requires forall n :: 0 <= n < |steps| ==> RoomAt(links, steps, id, n)
    ensures Arrived(links[|steps|].b, id)
  {
    hide ReachableLink, UniqueIds, RoundLasts, RoomAt, Arrived, SentData, FullBitmap, LinkStepAt, Carries, Brought;
    var fs := WholeRoundOnLink(links, steps, i, e);
    assert SentBetween(links[0].a.log, links[e].a.log) == fs;
    forall k | k in FullBitmap(links[0].a.tx[i]) - links[0].a.tx[i].acked ensures ArrivesIn(steps, id, k) {
      assert k in IndexesOf(fs);
      var n :| 0 <= n < |fs| && fs[n].header.fragmentIndex == k;
      assert fs[n] in fs && Reaches(steps, fs[n]);
      var m :| 0 <= m < |steps| && Carries(steps[m], fs[n]);
      CarriedIsBrought(steps[m], fs[n], id);
    }
    OneRoundCompletes(links, steps, i, id);
  }

  lemma CarriedIsBrought(step: Step, f: Frame, id: uint16)
    requires Carries(step, f) && f.DataFrame? && f.header.datagramId == id
    ensures f.header.fragmentIndex in Brought(step, id)
  {
    hide Decode;
  }

  lemma DoneOnlyGrows(m: Link, end: Link, id: uint16)
    requires m.b.log <= end.b.log
    ensures Done(m.b, id) ==> Done(end.b, id)
  {
    RecordGrows(m.b.log, end.b.log);
  }

  /** A run of unique ids keeps the invariant to its end. */
  lemma RunKeepsLink(links: seq<Link>, steps: seq<Step>)
    requires LinkTrace(links, steps) && ReachableLink(links[0]) && UniqueIds(links[|steps|])
    ensures LinkInv(links[0]) && LinkInv(links[|steps|]) && Grown(links[0], links[|steps|])
  {
    hide ReachableLink, LinkInv, Inv, LinkStepAt;
    ReachableInvs(links[0]);
    InvsAt(links, steps, |steps|);
    ReachableKeeps(links[0]);
    LinkInvAt(links, steps, |steps|);
  }

  lemma AckedHeld(l: Link, i: nat)
    requires LinkInv(l) && i < 4 && l.a.tx[i].state != EMPTY
    ensures Done(l.b, l.a.tx[i].datagramId) || l.a.tx[i].acked <= HeldBits(l.b.rx, l.a.tx[i].datagramId)
  {
    hide Inv, OneWay, HeldBits, RecordOf;
    if l.a.tx[i].state == QUEUED {
      QueuedUnacked(l.a, i);
    } else if !Done(l.b, l.a.tx[i].datagramId) {
      OpenLagsHeld(l.a, l.b, i);
    }
  }

  lemma QueuedUnacked(s: Engine, i: nat)
    requires Inv(s) && i < 4 && s.tx[i].state == QUEUED
    ensures s.tx[i].acked == {}
  {
    InvParts(s);
    InvSlotOk(s, i);
    hide Inv, TxInv, RxOk;
  }

  /** The fragments of a datagram do not change while its id is in use. */
  lemma FullStays(l: Link, i: nat, end: Link)
    requires LinkInv(l) && i < 4 && l.a.tx[i].state != EMPTY && Grown(l, end) && UniqueIds(end)
    ensures var id := l.a.tx[i].datagramId;
            && id in BookFor(end.a) && Datagram(BookFor(end.a)[id])
            && FullBitmap(l.a.tx[i]) == All(BookFor(end.a)[id])
  {
    hide LinkInv, BookOf, Position, FullBitmap, All, TxLink, TxInv, RxLink, RxOk;
    LinkParts(l);
    FullIsAll(l.a, i);
    BookIsSubmissions(l.a.config.initialDatagramId, l.a.submitted);
    BookIsSubmissions(end.a.config.initialDatagramId, end.a.submitted);
  }

  lemma LinkParts(l: Link)
    requires LinkInv(l)
    ensures TxLink(l.a) && TxInv(l.a) && RxLink(l.b, BookFor(l.a)) && RxOk(l.b)
  {
    hide TxLink, TxInv, RxLink, RxOk, BookFor;
  }

  /** Everything held means complete and, between packets, waiting for the egress. */
  lemma WaitingWhenAllHeld(end: Link, id: uint16)
    requires LinkInv(end) && id in BookFor(end.a) && Datagram(BookFor(end.a)[id])
    requires All(BookFor(end.a)[id]) <= HeldBits(end.b.rx, id)
    ensures exists j :: 0 <= j < 4 && end.b.rx[j].active && end.b.rx[j].reassembly.datagramId == id
                        && end.b.rx[j].waiting && ReassemblyIsComplete(end.b.rx[j].reassembly)
  {
    LinkParts(end);
    NonEmpty(BookFor(end.a)[id]);
    hide LinkInv, WindowHonest, DeliveriesHonest, Claims, BookFor, AcksOk, RxPoolOk, ReassemblyIsComplete, Find;
    hide Placed, All;
    var j := RxSlotFor(end.b.rx, id, 0);
    assert j < 4 && SlotGenuine(end.b.rx[j], end.b.rxPool, BookFor(end.a));
    CompleteExactlyWhenAllReceived(end.b.rx[j].reassembly);
    assert Settled(end.b.rx[j]);
    SlotFull(end.b.rx[j].reassembly, BookFor(end.a)[id]);
  }

  lemma SlotFull(r: Reassembly, d: Bytes)
    requires Consistent(r) && r.active && Datagram(d) && r.datagramLength == |d| && All(d) <= r.receivedBitmap
    ensures ReassemblyIsComplete(r)
  {
    CompleteExactlyWhenAllReceived(r);
    hide ReassemblyIsComplete;
  }
}
