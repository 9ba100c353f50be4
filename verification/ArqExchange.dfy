/** The whole exchange of a datagram between two engines: round, delivery, acknowledgement, completion. */
module ArqExchange {
  import opened Words
  import opened FramingV3
  import opened FragmentV3
  import opened DatagramPool
  import opened DuplicateWindow
  import opened ArqState
  import opened ArqInvariant
  import opened ArqReceiver
  import opened ArqSender
  import opened ArqLink
  import opened ArqRounds
  import ArqTiming
  import opened AtMostOnce
  import opened Redelivery
  import opened ArqReplies
  import opened ArqConvergence
  import opened ArqProgress

  // ---- acknowledgements in full ----

  lemma SubmittedIsBook(s: Engine, id: uint16, d: Bytes)
    requires |s.submitted| <= 0x1_0000
    ensures SubmittedAs(s, id, d) <==> id in BookFor(s) && BookFor(s)[id] == d
  {
    BookIsSubmissions(s.config.initialDatagramId, s.submitted);
    hide BookOf, Position;
  }

  /** When the peer reports success and lists every fragment while the slot is in flight, its arrival completes
      the datagram: the slot is emptied, the completion logged and the granted credits taken. */
  lemma FullAckCompletes(l: Link, p: Packet, ack: AckFrame, now: uint32, i: nat, d: Bytes, m: Link)
    requires ReachableLink(l) && UniqueIds(l) && m == Do(l, AtA(PacketInput(p, now)))
    requires Decode(p) == Success(Ack(ack)) && ack.failure == NONE
    requires i < 4 && Names(ack, l.a.tx[i]) && SubmittedAs(l.a, ack.datagramId, d)
    requires Datagram(d) && All(d) <= ack.fragmentBitmap
    ensures m.b == l.b && m.a.tx[i] == EMPTY_TX && m.a.credits == ClampCredits(ack.receiverCredits)
    ensures m.a.log == l.a.log + [AckSeen(ack), Completed(ack.datagramId)]
  {
    hide ReachableLink, LinkInv, SubmittedAs, Decode, TxLink, TxInv, RxLink, RxOk, BookFor, All, FullBitmap, Apply;
    hide RxSame, ClampCredits, HandleAck;
    ReachableKeeps(l);
    LinkParts(l);
    FullIsAll(l.a, i);
    SubmittedIsBook(l.a, ack.datagramId, d);
    PacketIsAck(l.a, p, ack, now);
    HandleAckMoves(l.a, ack, now);
    assert Completes(l.a.tx[i], ack) && AckedMoves(l.a.tx[i], m.a.tx[i], ack);
  }

  /** A genuine fragment, or a repeat of one, of a datagram that is remembered or delivered just now is answered
      with every fragment of the datagram submitted under its id. */
  lemma AnsweredInFull(l: Link, p: Packet, h: DataHeader, payload: Bytes, now: uint32, m: Link) returns (d: Bytes)
    requires ReachableLink(l) && UniqueIds(l)
    requires CanDo(l, AtB(PacketInput(p, now))) && m == Do(l, AtB(PacketInput(p, now)))
    requires Decode(p) == Success(DataFrame(h, payload))
    requires Find(l.b.window, h.datagramId).Some? || AcceptedIds(m.b.log) != AcceptedIds(l.b.log)
    ensures SubmittedAs(l.a, h.datagramId, d) && Datagram(d)
    ensures exists credits ::
              Enqueued(l.b.acks, m.b.acks, AckFrame(h.datagramId, All(d), credits, NONE),
                       Wrap32(now + l.b.config.ackTurnaround))
  {
    hide ReachableLink, LinkInv, SubmittedAs, Decode, Inv, OneWay, Apply, Answers, Enqueued, RxOk, TxInv, Allowed;
    hide BookFor, Find, AcceptedIds;
    ReachableKeeps(l);
    LinkInvParts(l);
    InvParts(l.b);
    GenuineArrival(l, p, h, payload, now);
    d := BookFor(l.a)[h.datagramId];
    SubmittedIsBook(l.a, h.datagramId, d) by { Unique(l); }
    DecodedIsBuildable(p);
    PacketIsData(l.b, p, h, payload, now);
    BuildableData(h, payload);
    DataAnswers(l.b, h, payload, now);
    FullAnswer(l.a, l.b, h, payload, now, m.b);
  }

  lemma LinkInvParts(l: Link)
    requires LinkInv(l)
    ensures Inv(l.a) && Inv(l.b) && OneWay(l.a, l.b)
  {
    hide Inv, OneWay;
  }

  /** What the channel brings is a fragment of a submitted datagram. */
  lemma GenuineArrival(l: Link, p: Packet, h: DataHeader, payload: Bytes, now: uint32)
    requires OneWay(l.a, l.b) && CanDo(l, AtB(PacketInput(p, now))) && Decode(p) == Success(DataFrame(h, payload))
    ensures GenuineData(h, payload, BookFor(l.a))
  {
    hide Decode, BookFor, GenuineData, WasSent, RxLink, RecordOf, AckedClaimed, BookOk, SlotsHold, SentGenuine;
    SentDataGenuine(l.a.log, BookFor(l.a), DataFrame(h, payload));
  }

  lemma FullAnswer(s: Engine, r: Engine, h: DataHeader, payload: Bytes, now: uint32, t: Engine)
    requires OneWay(s, r) && GenuineData(h, payload, BookFor(s)) && Answers(r, h, now, t)
    requires Find(r.window, h.datagramId).Some? || AcceptedIds(t.log) != AcceptedIds(r.log)
    ensures Datagram(BookFor(s)[h.datagramId])
    ensures exists credits ::
              Enqueued(r.acks, t.acks, AckFrame(h.datagramId, All(BookFor(s)[h.datagramId]), credits, NONE),
                       Wrap32(now + r.config.ackTurnaround))
  {
    hide BookFor, Find, AcceptedIds, Enqueued, RecordOf, Slice, InSlot, FreeSlots, LastAnswer, Allowance, RxSlotFor,
         All;
    var id, book := h.datagramId, BookFor(s);
    AllOfHeader(h, payload, book);
    if Find(r.window, id).Some? {
      RememberedInFull(s, r, id);
      assert Enqueued(r.acks, t.acks, AckFrame(id, All(book[id]), Allowance(FreeSlots(t.rx), LastAnswer(t)), NONE),
                      Wrap32(now + r.config.ackTurnaround));
    } else {
      assert Enqueued(r.acks, t.acks, AckFrame(id, All(book[id]), Allowance(FreeSlots(t.rx) - 1, LastAnswer(t)), NONE),
                      Wrap32(now + r.config.ackTurnaround));
    }
  }

  lemma AllOfHeader(h: DataHeader, payload: Bytes, book: Book)
    requires GenuineData(h, payload, book)
    ensures Datagram(book[h.datagramId]) && FragmentExpectedBitmap(h.fragmentCount) == All(book[h.datagramId])
  {
    hide Slice, ExpectedFragmentCount, ExpectedFragmentPayloadLen;
  }

  lemma RememberedInFull(s: Engine, r: Engine, id: uint16)
    requires OneWay(s, r) && Find(r.window, id).Some?
    ensures id in BookFor(s) && |BookFor(s)[id]| <= 0xFFFF
    ensures Find(r.window, id).value.fragmentBitmap == All(BookFor(s)[id]) && Find(r.window, id).value.failure == NONE
  {
    hide BookFor, Find, RecordOf, Claims, SlotsGenuine, DeliveriesHonest, TxLink, All;
    assert EntryHonest(Find(r.window, id).value, id, RecordOf(r.log).done, BookFor(s));
  }

  // ---- between honest engines no slot is stuck ----

  /** Of every datagram in flight something is still unacknowledged. */
  predicate SomeMissing(tx: TxSlots) {
    forall i :: 0 <= i < 4 && tx[i].state == OPEN ==> !(FullBitmap(tx[i]) <= tx[i].acked)
  }

  lemma MovesKeepMissing(s: Engine, t: Engine)
    requires TxInv(s) && TxInv(t) && TxMoves(s, t) && SomeMissing(s.tx)
    ensures SomeMissing(t.tx)
  {
    hide TxInv, MoveEvents, FullBitmap;
    forall i | 0 <= i < 4 && t.tx[i].state == OPEN ensures !(FullBitmap(t.tx[i]) <= t.tx[i].acked) {
      assert SlotMoves(s.tx[i], t.tx[i]);
      InvSlotOk(s, i);
      InvSlotOk(t, i);
      SomeFragment(t.config, t.tx[i]);
      SameFull(s.tx[i], t.tx[i]);
    }
  }

  lemma SameFull(a: TxSlot, b: TxSlot)
    requires b.fragmentCount == a.fragmentCount
    ensures FullBitmap(b) == FullBitmap(a)
  {}

  lemma AckKeepsMissing(s: Engine, t: Engine, ack: AckFrame)
    requires AckMoves(s, t, ack) && SomeMissing(s.tx)
    requires ack.failure == NONE || ack.failure == CREDIT_WITHDRAWAL || ack.fragmentBitmap == {}
    ensures SomeMissing(t.tx)
  {
    hide RxSame, ClampCredits;
    forall i | 0 <= i < 4 && t.tx[i].state == OPEN ensures !(FullBitmap(t.tx[i]) <= t.tx[i].acked) {
      assert AckedMoves(s.tx[i], t.tx[i], ack);
      if Names(ack, s.tx[i]) {
        SameFull(s.tx[i], t.tx[i]);
      }
      hide FullBitmap;
    }
  }

  lemma HonestFailure(s: Engine, r: Engine, ack: AckFrame)
    requires OneWay(s, r) && ack in RecordOf(r.log).sent
    ensures ack.failure == NONE || ack.failure == CREDIT_WITHDRAWAL || ack.fragmentBitmap == {}
  {
    hide BookFor, RecordOf, TxLink, SlotsGenuine, WindowHonest, DeliveriesHonest, FinalsWithheld, HeldBits, All;
    assert ack in Said(r);
    assert AckHonest(ack, r.rx, RecordOf(r.log).done, BookFor(s));
  }

  lemma SameSlotsMissing(s: Engine, t: Engine)
    requires TxSame(s, t)
    ensures t.tx == s.tx
  {
    hide Grew;
  }

  lemma FrameKeepsMissing(s: Engine, r: Engine, f: Frame, now: uint32)
    requires OneWay(s, r) && Inv(s) && Buildable(f) && SomeMissing(s.tx)
    requires f.ControlFrame? || f.MgmtFrame? || WasSent(r.log, f)
    ensures SomeMissing(OnFrame(s, f, now).tx)
  {
    hide Inv, OneWay, HandleData, HandleAck, RxOk, TxInv, WasSent, RecordOf, TxSame, AckMoves, SomeMissing;
    InvParts(s);
    match f
    case DataFrame(h, payload) =>
      BuildableData(h, payload);
      HandleDataKeeps(s, h, payload, now);
      SameSlotsMissing(s, HandleData(s, h, payload, now));
    case Ack(ack) =>
      SentAckRecorded(r.log, ack);
      HonestFailure(s, r, ack);
      HandleAckMoves(s, ack, now);
      AckKeepsMissing(s, HandleAck(s, ack, now), ack);
    case ControlFrame(_) =>
    case MgmtFrame(_) =>
  }

  lemma SubmitKeepsMissing(s: Engine, data: Option<Bytes>)
    requires SomeMissing(s.tx)
    ensures SomeMissing(Submit(s, data).0.tx)
  {
    hide Acquire, WriteBuffer, FullBitmap, Filled;
  }

  lemma TickKeepsMissing(s: Engine, now: uint32)
    requires Inv(s) && SomeMissing(s.tx)
    ensures SomeMissing(OnTick(s, now).tx)
  {
    hide Inv, OnTick, TxTick, TryCompleteRxSlots, SendPendingAck, RxOk, TxInv, TxSame, RxSame, TxMoves, SomeMissing;
    TickHalves(s, now);
    var u := SendPendingAck(TryCompleteRxSlots(s, 0, now).0, now).0;
    SameSlotsMissing(s, u);
    InvParts(u);
    TxTickMoves(u, now);
    TxTickKeeps(u, now);
    MovesKeepMissing(u, TxTick(u, now));
  }

  lemma InputKeepsMissing(s: Engine, r: Engine, input: Input)
    requires OneWay(s, r) && Inv(s) && Allowed(r.log, input) && SomeMissing(s.tx)
    ensures SomeMissing(Apply(s, input).tx)
  {
    hide Inv, OneWay, Submit, OnFrame, Decode, WasSent, SendPendingAck, OnTick, SomeMissing, TxSame;
    match input
    case SubmitInput(data) => SubmitKeepsMissing(s, data);
    case PacketInput(packet, now) =>
      if Decode(packet).Success? {
        DecodedIsBuildable(packet);
        FrameKeepsMissing(s, r, Decode(packet).value, now);
      }
    case TickInput(now) => TickKeepsMissing(s, now);
    case FlushInput(now) =>
      FlushSame(s, now);
      SameSlotsMissing(s, SendPendingAck(s, now).0);
  }

  lemma {:induction false} MissingAt(links: seq<Link>, steps: seq<Step>, k: nat)
    requires LinkTrace(links, steps) && k <= |steps| && LinkInv(links[0]) && UniqueIds(links[k])
    requires SomeMissing(links[0].a.tx)
    ensures SomeMissing(links[k].a.tx)
  {
    hide Inv, OneWay, Apply, Allowed, SomeMissing;
    if k > 0 {
      LinkInvParts(links[0]);
      InvsAt(links, steps, k - 1);
      assert LinkStepAt(links, steps, k - 1);
      StepGrows(links[k - 1], steps[k - 1]);
      LinkInvAt(links, steps, k - 1);
      LinkInvParts(links[k - 1]);
      MissingAt(links, steps, k - 1);
      match steps[k - 1]
      case AtA(input) => InputKeepsMissing(links[k - 1].a, links[k - 1].b, input);
      case AtB(_) =>
    }
  }

  /** Between two engines every datagram in flight has a fragment unacknowledged, so no slot is ever stuck: every
      failure they report lists nothing, or is a withdrawal. */
  lemma NeverStuck(l: Link, i: nat)
    requires ReachableLink(l) && UniqueIds(l)
    ensures i < 4 && l.a.tx[i].state == OPEN ==> !(FullBitmap(l.a.tx[i]) <= l.a.tx[i].acked)
    ensures !Stuck(l.a, i)
  {
    hide LinkInv, UniqueIds, LinkStepAt, ReachableLink, FullBitmap;
    var links, steps := ReachableLinkTrace(l);
    FreshLinkInv(links[0]);
    FreshMissing(links[0].a);
    MissingAt(links, steps, |steps|);
  }

  lemma FreshMissing(s: Engine)
    requires IsReset(s)
    ensures SomeMissing(s.tx)
  {
    hide FullBitmap, FreshPool, EmptyWindow, ClampCredits;
  }

  // ---- each end of a link is an engine that runs ----

  lemma {:induction false} EndTrace(setup: Setup, links: seq<Link>, steps: seq<Step>, k: nat)
    returns (states: seq<Engine>, inputs: seq<Input>)
    requires LinkHistory(setup, links, steps) && k <= |steps|
    ensures History(setup.configA, setup.envA, states, inputs) && states[|inputs|] == links[k].a
  {
    hide Reset, Apply, CanDo;
    assert LinkAt(setup, links, steps, k);
    if k == 0 {
      states, inputs := [links[0].a], [];
      assert StateAt(setup.configA, setup.envA, states, inputs, 0);
    } else {
      states, inputs := EndTrace(setup, links, steps, k - 1);
      match steps[k - 1]
      case AtA(input) =>
        states, inputs := Longer(setup.configA, setup.envA, states, inputs, input);
      case AtB(_) =>
    }
  }

  lemma Longer(config: Config, callbacks: Callbacks, states: seq<Engine>, inputs: seq<Input>, input: Input)
    returns (more: seq<Engine>, calls: seq<Input>)
    requires History(config, callbacks, states, inputs)
    ensures History(config, callbacks, more, calls) && more[|calls|] == Apply(states[|inputs|], input)
  {
    hide Reset, Apply;
    more, calls := states + [Apply(states[|inputs|], input)], inputs + [input];
    forall k | 0 <= k <= |calls| ensures StateAt(config, callbacks, more, calls, k) {
      if k < |calls| {
        assert StateAt(config, callbacks, states, inputs, k);
      }
    }
  }

  lemma EndReachable(l: Link)
    requires ReachableLink(l)
    ensures Reachable(l.a)
  {
    hide LinkAt, StateAt;
    var setup, links, steps :| LinkHistory(setup, links, steps) && l == links[|steps|];
    var states, inputs := EndTrace(setup, links, steps, |steps|);
  }

  /** So in a link a deadline that is now always means action: with nothing to acknowledge or deliver, a tick
      gives a datagram up, retries or opens one, or offers a fragment to the radio. */
  lemma DueMeansAction(l: Link, now: uint32, t: Engine)
    requires ReachableLink(l) && UniqueIds(l) && FreeToSend(l.a)
    requires NextDeadline(l.a, now) == Some(now) && Leads(l.a, TickInput(now), t)
    ensures exists i :: 0 <= i < 4 && Acts(l.a, t, i)
  {
    hide *;
    EndReachable(l);
    forall i ensures !Stuck(l.a, i) {
      NeverStuck(l, i);
    }
    ActsWhenDue(l.a, now, t);
  }

  lemma ReachableAfter(l: Link, step: Step)
    requires ReachableLink(l) && CanDo(l, step)
    ensures ReachableLink(Do(l, step))
  {
    hide Reset, CanDo, Do;
    var setup, links, steps :| LinkHistory(setup, links, steps) && l == links[|steps|];
    var longer, more := links + [Do(l, step)], steps + [step];
    forall k | 0 <= k <= |more| ensures LinkAt(setup, longer, more, k) {
      if k < |more| {
        assert LinkAt(setup, links, steps, k);
        assert k > 0 ==> LinkStepAt(links, steps, k - 1);
      }
    }
    assert LinkHistory(setup, longer, more);
  }

  // ---- the round trip of an acknowledgement ----

  /** With no datagram waiting for the egress, a tick sends the due head of the queue and nothing else. */
  lemma HeadGoesOut(s: Engine, now: uint32)
    requires |s.acks| > 0 && !SomeWaiting(s.rx) && Reached(now, s.acks[0].readyDeadline) && RadioReady(s)
    ensures OnTick(s, now) == s.(acks := s.acks[1..], log := s.log + [Sent(Ack(s.acks[0].ack), true)])
  {
    ArqTiming.NothingToComplete(s, 0, now);
    hide Encode, TxTick, Reached, TryCompleteRxSlots;
  }

  /** From delivery to completion: B delivers a datagram, or receives a fragment of one it remembers, with an
      empty queue; the acknowledgement goes out on a tick once it is due; and when it arrives, A, still
      sending that datagram, completes it. */
  lemma AnswerCompletes(links: seq<Link>, steps: seq<Step>, p: Packet, h: DataHeader, payload: Bytes, x: uint32,
                        y: uint32, q: Packet, z: uint32, i: nat)
    requires LinkTrace(links, steps) && ReachableLink(links[0]) && UniqueIds(links[0])
    requires steps == [AtB(PacketInput(p, x)), AtB(TickInput(y)), AtA(PacketInput(q, z))]
    requires Decode(p) == Success(DataFrame(h, payload)) && |links[0].b.acks| == 0
    requires Find(links[0].b.window, h.datagramId).Some? || AcceptedIds(links[1].b.log) != AcceptedIds(links[0].b.log)
    requires !SomeWaiting(links[1].b.rx) && RadioReady(links[1].b)
    requires Reached(y, Wrap32(x + links[0].b.config.ackTurnaround))
    requires |links[2].b.log| > 0 && links[2].b.log[|links[2].b.log| - 1].Sent?
             && Decode(q) == Success(links[2].b.log[|links[2].b.log| - 1].frame)
    requires i < 4 && links[0].a.tx[i].state == OPEN && links[0].a.tx[i].datagramId == h.datagramId
    ensures links[3].a.tx[i] == EMPTY_TX && |links[3].a.log| > 0
    ensures links[3].a.log[|links[3].a.log| - 1] == Completed(h.datagramId)
  {
    hide ReachableLink, UniqueIds, Apply, CanDo, Decode, Find, AcceptedIds, SomeWaiting, RadioReady, Reached, Wrap32,
         All;
    hide Enqueued, SubmittedAs, OnTick, Grown, ClampCredits;
    var l0, l1, l2, l3 := links[0], links[1], links[2], links[3];
    ThreeSteps(links, steps);
    var d := AnsweredInFull(l0, p, h, payload, x, l1);
    var credits :| Enqueued(l0.b.acks, l1.b.acks, AckFrame(h.datagramId, All(d), credits, NONE),
                            Wrap32(x + l0.b.config.ackTurnaround));
    var ack := AckFrame(h.datagramId, All(d), credits, NONE);
    IntoEmpty(l0.b.acks, l1.b.acks, ack, Wrap32(x + l0.b.config.ackTurnaround));
    TickIs(l1.b, y);
    HeadGoesOut(l1.b, y);
    assert l2.a == l0.a;
    assert l2.b.log[|l2.b.log| - 1] == Sent(Ack(ack), true);
    FullAckCompletes(l2, q, ack, z, i, d, l3);
  }

  lemma IntoEmpty(a: seq<PendingAck>, b: seq<PendingAck>, ack: AckFrame, ready: uint32)
    requires |a| == 0 && Enqueued(a, b, ack, ready)
    ensures b == [PendingAck(ack, ready)]
  {}

  lemma ThreeSteps(links: seq<Link>, steps: seq<Step>)
    requires LinkTrace(links, steps) && |steps| == 3 && ReachableLink(links[0]) && UniqueIds(links[0])
    requires steps[0].AtB? && steps[0].input.PacketInput? && steps[1].AtB? && steps[1].input.TickInput? && steps[2].AtA?
    ensures CanDo(links[0], steps[0]) && links[1] == Do(links[0], steps[0]) && links[2] == Do(links[1], steps[1])
    ensures links[3] == Do(links[2], steps[2]) && ReachableLink(links[2]) && UniqueIds(links[2])
  {
    hide ReachableLink, Apply, CanDo;
    assert LinkStepAt(links, steps, 0) && LinkStepAt(links, steps, 1) && LinkStepAt(links, steps, 2);
    ReachableAfter(links[0], steps[0]);
    ReachableAfter(links[1], steps[1]);
    ReachableInvs(links[0]);
    ReachableInvs(links[1]);
    SubmitsNothing(links[0].b, steps[0].input);
    SubmitsNothing(links[1].b, steps[1].input);
  }

  lemma SubmitsNothing(s: Engine, input: Input)
    requires Inv(s) && !input.SubmitInput?
    ensures Apply(s, input).submitted == s.submitted
  {
    hide Inv, OnFrame, Decode, SendPendingAck, OnTick, TxTick, TryCompleteRxSlots, Buildable, TxInv, RxOk;
    InvParts(s);
    match input
    case PacketInput(packet, now) =>
      if Decode(packet).Success? {
        DecodedIsBuildable(packet);
        FrameSubmitsNothing(s, Decode(packet).value, now);
      }
    case TickInput(now) =>
      TickHalves(s, now);
      TxTickMoves(SendPendingAck(TryCompleteRxSlots(s, 0, now).0, now).0, now);
    case FlushInput(now) => FlushSame(s, now);
  }

  // ---- what waits is delivered ----

  predicate WaitsIn(r: Engine, id: uint16, j: nat) {
    j < 4 && r.rx[j].active && r.rx[j].waiting && r.rx[j].reassembly.datagramId == id
  }

  function WaitingUpTo(rx: RxSlots, n: nat): set<nat>
    requires n <= 4
  {
    set k: nat | k < n && rx[k].active && rx[k].waiting
  }

  lemma {:induction false} LowestExists(rx: RxSlots, i: nat, j: nat) returns (k: nat)
    requires i <= j < 4 && rx[j].active && rx[j].waiting
    requires forall m :: 0 <= m < i ==> !(rx[m].active && rx[m].waiting)
    ensures k <= j && LowestWaiting(rx, k)
    decreases j - i
  {
    if rx[i].active && rx[i].waiting {
      k := i;
    } else {
      k := LowestExists(rx, i + 1, j);
    }
  }

  lemma {:induction false} DeliveredIsDone(log: Log, id: uint16, data: Bytes)
    requires Delivered(id, data, true) in log
    ensures id in RecordOf(log).done
  {
    var n := |log| - 1;
    if log[n] != Delivered(id, data, true) {
      DeliveredIsDone(log[..n], id, data);
    }
  }

  /** A tick of a ready egress delivers the datagram, or one in a lower slot. */
  lemma TickDelivers(s: Engine, id: uint16, j: nat, now: uint32)
    requires Inv(s) && WaitsIn(s, id, j) && EgressReady(s)
    ensures var t := OnTick(s, now);
            Done(t, id) || (WaitsIn(t, id, j) && |WaitingUpTo(t.rx, j + 1)| < |WaitingUpTo(s.rx, j + 1)|)
  {
    hide Inv, RxOk, TxInv, EgressReady, TryCompleteRxSlots, SendPendingAck, TxTick, HeadOffered, RecordOf;
    InvParts(s);
    var k := LowestExists(s.rx, 0, j);
    ReadyDelivers(s, k, now);
    var u := TryCompleteRxSlots(s, 0, now).0;
    SendingOffersHead(u, now);
    var t := OnTick(s, now);
    assert t == SendPendingAck(u, now).0 && t.rx == u.rx;
    DeliveredBy(s, u, k, now);
    OfferedGrows(u.acks, u.log, u.callbacks.send, now, t.acks, t.log);
    if k == j {
      var e := Delivered(id, OutputOf(s, j), true);
      assert e in t.log;
      DeliveredIsDone(t.log, id, OutputOf(s, j));
    } else {
      assert WaitingUpTo(t.rx, j + 1) == WaitingUpTo(s.rx, j + 1) - {k};
    }
  }

  lemma DeliveredBy(s: Engine, u: Engine, k: nat, now: uint32)
    requires Delivers(s, u, k, now)
    ensures u.rx == s.rx[k := EMPTY_RX] && Delivered(s.rx[k].reassembly.datagramId, OutputOf(s, k), true) in u.log
  {
    hide AcceptedIds, Enqueued, Allowance, FreeSlots, LastAnswer, Store, OutputOf, FragmentExpectedBitmap;
  }

  lemma OfferedGrows(q: seq<PendingAck>, before: Log, send: Option<(Log, Packet) -> bool>, now: uint32,
                     rest: seq<PendingAck>, after: Log)
    requires HeadOffered(q, before, send, now, rest, after)
    ensures before <= after
  {
    hide Encode, Reached;
  }

  /** B does nothing but tick, with an egress that is ready each time. */
  ghost predicate ReadyAt(links: seq<Link>, steps: seq<Step>, n: nat)
    requires n < |steps| < |links|
  {
    steps[n].AtB? ==> steps[n].input.TickInput? && EgressReady(links[n].b)
  }

  function TicksOf(steps: seq<Step>): nat {
    if |steps| == 0 then 0 else TicksOf(steps[..|steps| - 1]) + (if steps[|steps| - 1].AtB? then 1 else 0)
  }

  lemma {:induction false} ReadyRun(links: seq<Link>, steps: seq<Step>, id: uint16, j: nat, n: nat)
    requires LinkTrace(links, steps) && n <= |steps| && LinkInv(links[0]) && WaitsIn(links[0].b, id, j)
    requires UniqueIds(links[n]) && forall k :: 0 <= k < |steps| ==> ReadyAt(links, steps, k)
    ensures Done(links[n].b, id)
            || (WaitsIn(links[n].b, id, j)
                && |WaitingUpTo(links[n].b.rx, j + 1)| + TicksOf(steps[..n]) <= |WaitingUpTo(links[0].b.rx, j + 1)|)
    decreases n
  {
    hide Inv, OneWay, Apply, Allowed, Done, WaitingUpTo, EgressReady;
    if n > 0 {
      LinkInvParts(links[0]);
      InvsAt(links, steps, n - 1);
      assert LinkStepAt(links, steps, n - 1) && ReadyAt(links, steps, n - 1);
      StepGrows(links[n - 1], steps[n - 1]);
      LinkInvAt(links, steps, n - 1);
      LinkInvParts(links[n - 1]);
      ReadyRun(links, steps, id, j, n - 1);
      assert steps[..n][..n - 1] == steps[..n - 1];
      if Done(links[n - 1].b, id) {
        StepKeepsDone(links[n - 1], steps[n - 1], id);
      } else if steps[n - 1].AtB? {
        TickIs(links[n - 1].b, steps[n - 1].input.now);
        TickDelivers(links[n - 1].b, id, j, steps[n - 1].input.now);
      }
    }
  }

  lemma WaitingCounted(rx: RxSlots, j: nat)
    requires j < 4 && rx[j].active && rx[j].waiting
    ensures 0 < |WaitingUpTo(rx, j + 1)| <= |WaitingUpTo(rx, 4)|
  {
    assert j in WaitingUpTo(rx, j + 1);
    assert WaitingUpTo(rx, j + 1) <= WaitingUpTo(rx, 4);
    SubsetSize(WaitingUpTo(rx, j + 1), WaitingUpTo(rx, 4));
  }

  /** What has arrived is delivered once B, its egress ready, has ticked as often as datagrams wait. */
  lemma ArrivedIsDelivered(links: seq<Link>, steps: seq<Step>, id: uint16)
    requires LinkTrace(links, steps) && LinkInv(links[0]) && UniqueIds(links[|steps|]) && Arrived(links[0].b, id)
    requires forall n :: 0 <= n < |steps| ==> ReadyAt(links, steps, n)
    requires TicksOf(steps) >= |WaitingUpTo(links[0].b.rx, 4)|
    ensures Done(links[|steps|].b, id)
  {
    hide Inv, OneWay, LinkStepAt, WaitingUpTo, ReadyAt, TicksOf, UniqueIds, ReassemblyIsComplete, RecordOf;
    if Done(links[0].b, id) {
      DoneAtEnd(links, steps, id, |steps|);
    } else {
      var j :| 0 <= j < 4 && links[0].b.rx[j].active && links[0].b.rx[j].reassembly.datagramId == id
               && links[0].b.rx[j].waiting;
      WaitingCounted(links[0].b.rx, j);
      ReadyRun(links, steps, id, j, |steps|);
      assert steps[..|steps|] == steps;
      if !Done(links[|steps|].b, id) {
        WaitingCounted(links[|steps|].b.rx, j);
        assert false;
      }
    }
  }

  lemma {:induction false} DoneAtEnd(links: seq<Link>, steps: seq<Step>, id: uint16, n: nat)
    requires LinkTrace(links, steps) && n <= |steps| && LinkInv(links[0]) && UniqueIds(links[n]) && Done(links[0].b, id)
    ensures Done(links[n].b, id)
  {
    hide Inv, OneWay, Do, CanDo, Done;
    if n > 0 {
      LinkInvParts(links[0]);
      InvsAt(links, steps, n - 1);
      assert LinkStepAt(links, steps, n - 1);
      StepGrows(links[n - 1], steps[n - 1]);
      LinkInvAt(links, steps, n - 1);
      DoneAtEnd(links, steps, id, n - 1);
      StepKeepsDone(links[n - 1], steps[n - 1], id);
    }
  }

  /** Selective repeat delivers: a round that A sends to its end, all of whose frames reach B, and then as many
      ticks of B with a ready egress as datagrams wait there, and the egress has accepted the datagram
      submitted, byte for byte. */
  lemma LosslessRoundDelivers(links: seq<Link>, steps: seq<Step>, i: nat, id: uint16, e: nat,
                              more: seq<Link>, ticks: seq<Step>)
    returns (j: nat, d: Bytes)
    requires LinkTrace(links, steps) && ReachableLink(links[0]) && UniqueIds(links[|steps|])
    requires i < 4 && 0 < e <= |steps| && links[0].a.tx[i].datagramId == id
    requires Begins(links[0].a.tx[i], links[1].a.tx[i]) && RoundLasts(links, steps, i, 1, e)
    requires links[e].a.tx[i].round == {}
    requires forall f :: f in SentBetween(links[0].a.log, links[e].a.log) ==> Reaches(steps, f)
    requires forall n :: 0 <= n < |steps| ==> RoomAt(links, steps, id, n)
    requires LinkTrace(more, ticks) && more[0] == links[|steps|] && UniqueIds(more[|ticks|])
    requires forall n :: 0 <= n < |ticks| ==> ReadyAt(more, ticks, n)
    requires TicksOf(ticks) >= |WaitingUpTo(more[0].b.rx, 4)|
    ensures j < |more[|ticks|].b.log| && more[|ticks|].b.log[j] == Delivered(id, d, true)
    ensures SubmittedAs(more[|ticks|].a, id, d)
  {
    hide *;
    LosslessRoundCompletes(links, steps, i, id, e);
    RunKeepsLink(links, steps);
    ArrivedIsDelivered(more, ticks, id);
    TraceLengths(more, ticks);
    LinkInvAt(more, ticks, |ticks|);
    var end := more[|ticks|];
    LinkInvParts(end);
    DoneIn(end.b, id);
    j := DoneMeansDelivered(end.b.log, id);
    d := end.b.log[j].data;
    UniqueA(end);
    DeliveryIsSubmission(end.a, end.b, j);
  }

  lemma TraceLengths(links: seq<Link>, steps: seq<Step>)
    requires LinkTrace(links, steps)
    ensures |links| == |steps| + 1
  {
    hide LinkStepAt;
  }

  lemma DoneIn(r: Engine, id: uint16)
    requires Done(r, id)
    ensures id in RecordOf(r.log).done
  {}

  lemma UniqueA(l: Link)
    requires UniqueIds(l)
    ensures |l.a.submitted| <= 0x1_0000
  {}
}
